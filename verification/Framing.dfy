/** The length-prefixed wire format of internal/protocol/protocol.go, over a connection whose
    bytes arrive in arbitrary chunks. */
module Framing {
  newtype byte = x: int | 0 <= x < 0x100

  const MAX_MESSAGE_SIZE := 0x10_0000

  const UINT32: int := 0x1_0000_0000

  // ------------------------------------------------------------------ the format

  function Header(n: int): (h: seq<byte>)
    requires 0 <= n < UINT32
    ensures |h| == 4
  {
    [(n / 0x100_0000) as byte, (n / 0x1_0000 % 0x100) as byte, (n / 0x100 % 0x100) as byte, (n % 0x100) as byte]
  }

  function Length(h: seq<byte>): (n: nat)
    requires |h| == 4
    ensures n < UINT32
  {
    h[0] as int * 0x100_0000 + h[1] as int * 0x1_0000 + h[2] as int * 0x100 + h[3] as int
  }

  /** What WriteMessage puts on the wire; the conversion to uint32 wraps. */
  function Encode(data: seq<byte>): seq<byte> {
    Header(|data| % UINT32) + data
  }

  datatype ReadError = HeaderError | TooLarge(length: nat) | BodyError

  datatype Outcome = Frame(data: seq<byte>) | Failed(error: ReadError)

  /** What ReadMessage makes of all the bytes still to come, and what it leaves unread. */
  function Decode(s: seq<byte>): (Outcome, seq<byte>) {
    if |s| < 4 then (Failed(HeaderError), [])
    else
      var n := Length(s[..4]);
      if n > MAX_MESSAGE_SIZE then (Failed(TooLarge(n)), s[4..])
      else if |s| - 4 < n then (Failed(BodyError), [])
      else (Frame(s[4..4 + n]), s[4 + n..])
  }

  // --------------------------------------------------------------- the connection

  function Flatten(chunks: seq<seq<byte>>): seq<byte> {
    if chunks == [] then [] else chunks[0] + Flatten(chunks[1..])
  }

  /** One end of a connection: chunks still to be delivered before end of file, and bytes sent.
      A broken connection refuses every write. */
  class Conn {
    var incoming: seq<seq<byte>>
    var outgoing: seq<byte>
    var broken: bool

    function Pending(): seq<byte>
      reads this
    {
      Flatten(incoming)
    }

    constructor (incoming: seq<seq<byte>>)
      ensures this.incoming == incoming && outgoing == [] && !broken
    {
      this.incoming := incoming;
      this.outgoing := [];
      this.broken := false;
    }

    /** Delivers at most one chunk into buf from index at on. */
    method Read(buf: array<byte>, at: nat) returns (n: nat, eof: bool)
      requires at < buf.Length
      modifies this`incoming, buf
      ensures eof <==> old(incoming) == []
      ensures at + n <= buf.Length && buf[..at] == old(buf[..at])
      ensures n <= |old(Pending())| && buf[at..at + n] == old(Pending())[..n] && Pending() == old(Pending())[n..]
      ensures !eof ==> |incoming| < |old(incoming)| || (|incoming| == |old(incoming)| && at + n == buf.Length)
    {
      if incoming == [] {
        return 0, true;
      }
      var chunk := incoming[0];
      n := if |chunk| < buf.Length - at then |chunk| else buf.Length - at;
      forall i | 0 <= i < n {
        buf[at + i] := chunk[i];
      }
      incoming := if n == |chunk| then incoming[1..] else [chunk[n..]] + incoming[1..];
      eof := false;
    }

    method Write(data: seq<byte>) returns (ok: bool)
      modifies this`outgoing
      ensures ok == !broken
      ensures outgoing == old(outgoing) + (if ok then data else [])
    {
      if !broken {
        outgoing := outgoing + data;
      }
      ok := !broken;
    }
  }

  /** io.ReadFull: keep reading until buf is full or the stream ends. */
  method ReadFull(conn: Conn, buf: array<byte>) returns (ok: bool)
    modifies conn`incoming, buf
    ensures ok <==> |old(conn.Pending())| >= buf.Length
    ensures ok ==> buf[..] == old(conn.Pending())[..buf.Length] && conn.Pending() == old(conn.Pending())[buf.Length..]
    ensures !ok ==> conn.Pending() == []
  {
    ghost var all := conn.Pending();
    var n := 0;
    while n < buf.Length
      invariant n <= buf.Length && n <= |all|
      invariant buf[..n] == all[..n] && conn.Pending() == all[n..]
      decreases |conn.incoming|, buf.Length - n
    {
      ghost var before := conn.Pending();
      var m, eof := conn.Read(buf, n);
      if eof {
        return false;
      }
      assert buf[..n + m] == buf[..n] + buf[n..n + m];
      assert all[..n + m] == all[..n] + all[n..][..m];
      n := n + m;
    }
    return true;
  }

  method ReadMessage(conn: Conn) returns (r: Outcome)
    modifies conn`incoming
    ensures (r, conn.Pending()) == Decode(old(conn.Pending()))
  {
    ghost var all := conn.Pending();
    var buf := new byte[4];
    var ok := ReadFull(conn, buf);
    if !ok {
      return Failed(HeaderError);
    }
    var length := buf[0] as int * 0x100_0000 + buf[1] as int * 0x1_0000 + buf[2] as int * 0x100 + buf[3] as int;
    assert length == Length(all[..4]) by { assert buf[..] == all[..4]; }
    if length > MAX_MESSAGE_SIZE {
      return Failed(TooLarge(length));
    }
    var data := new byte[length];
    ok := ReadFull(conn, data);
    if !ok {
      return Failed(BodyError);
    }
    assert all[4..][..length] == all[4..4 + length] && all[4..][length..] == all[4 + length..];
    return Frame(data[..]);
  }

  method WriteMessage(conn: Conn, data: seq<byte>) returns (ok: bool)
    modifies conn`outgoing
    ensures ok == !conn.broken
    ensures conn.outgoing == old(conn.outgoing) + (if ok then Encode(data) else [])
  {
    var length := |data| % UINT32;
    var buf := new byte[4];
    buf[0] := (length / 0x100_0000) as byte;
    buf[1] := (length / 0x1_0000 % 0x100) as byte;
    buf[2] := (length / 0x100 % 0x100) as byte;
    buf[3] := (length % 0x100) as byte;
    assert buf[..] == Header(length);
    ok := conn.Write(buf[..]);
    if ok {
      ok := conn.Write(data);
    }
  }

  // ------------------------------------------------------------- one frame at a time

  lemma LengthOfHeader(n: int)
    requires 0 <= n < UINT32
    ensures Length(Header(n)) == n
  {
    var q1, q2, q3 := n / 0x100, n / 0x1_0000, n / 0x100_0000;
    assert q2 == q1 / 0x100 && q3 == q2 / 0x100;
    assert q2 % 0x100 == q2 - q3 * 0x100 && q1 % 0x100 == q1 - q2 * 0x100 && n % 0x100 == n - q1 * 0x100;
  }

  lemma LastByte(q: int, b: int)
    requires 0 <= b < 0x100
    ensures (q * 0x100 + b) / 0x100 == q && (q * 0x100 + b) % 0x100 == b
  {
  }

  lemma HeaderOfLength(h: seq<byte>)
    requires |h| == 4
    ensures Header(Length(h)) == h
  {
    var n, a, b, c, d := Length(h), h[0] as int, h[1] as int, h[2] as int, h[3] as int;
    var q2 := a * 0x100 + b;
    var q1 := q2 * 0x100 + c;
    assert n == q1 * 0x100 + d;
    LastByte(a, b);
    LastByte(q2, c);
    LastByte(q1, d);
    assert n / 0x1_0000 == q1 / 0x100 && n / 0x100_0000 == q2 / 0x100;
  }

  /** The header is big-endian: one byte more at the low end moves the others up by one place. */
  lemma HeaderIsBigEndian(n: nat, b: byte)
    requires n < 0x100_0000
    ensures Header(n)[0] == 0 && Header(n * 0x100 + b as int) == Header(n)[1..] + [b]
  {
    var m := n * 0x100 + b as int;
    LastByte(n, b as int);
    assert m / 0x1_0000 == n / 0x100 && m / 0x100_0000 == n / 0x1_0000;
    assert n / 0x1_0000 % 0x100 == n / 0x1_0000;
  }

  lemma DecodesWhole(s: seq<byte>, n: nat)
    requires n <= MAX_MESSAGE_SIZE && 4 + n <= |s| && s[..4] == Header(n)
    ensures Decode(s) == (Frame(s[4..4 + n]), s[4 + n..])
  {
    LengthOfHeader(n);
  }

  lemma EncodedDecodes(data: seq<byte>, rest: seq<byte>, s: seq<byte>)
    requires |data| <= MAX_MESSAGE_SIZE && s == Encode(data) + rest
    ensures Decode(s) == (Frame(data), rest)
  {
    assert |data| % UINT32 == |data|;
    var header := Header(|data|);
    assert s == header + data + rest;
    assert s[..4] == header && s[4..4 + |data|] == data && s[4 + |data|..] == rest;
    DecodesWhole(s, |data|);
  }

  lemma PartsOfDecoded(s: seq<byte>, data: seq<byte>, rest: seq<byte>)
    requires Decode(s) == (Frame(data), rest)
    ensures |s| >= 4 && Length(s[..4]) == |data| <= MAX_MESSAGE_SIZE && s == s[..4] + data + rest
  {
  }

  lemma DecodedWasEncoded(s: seq<byte>, data: seq<byte>, rest: seq<byte>)
    requires Decode(s) == (Frame(data), rest)
    ensures |data| <= MAX_MESSAGE_SIZE && s == Encode(data) + rest
  {
    PartsOfDecoded(s, data, rest);
    HeaderOfLength(s[..4]);
    assert |data| % UINT32 == |data|;
  }

  /** The frames ReadMessage accepts are exactly the encodings of data up to the cap, and it
      consumes exactly the encoding. */
  lemma DecodeExactly(s: seq<byte>, data: seq<byte>, rest: seq<byte>)
    ensures Decode(s) == (Frame(data), rest) <==> |data| <= MAX_MESSAGE_SIZE && s == Encode(data) + rest
  {
    if |data| <= MAX_MESSAGE_SIZE && s == Encode(data) + rest {
      EncodedDecodes(data, rest, s);
    }
    if Decode(s) == (Frame(data), rest) {
      DecodedWasEncoded(s, data, rest);
    }
  }

  /** What was written reads back exactly when it is within the cap. */
  lemma RoundTripExactly(data: seq<byte>, rest: seq<byte>)
    ensures Decode(Encode(data) + rest) == (Frame(data), rest) <==> |data| <= MAX_MESSAGE_SIZE
  {
    DecodeExactly(Encode(data) + rest, data, rest);
  }

  lemma CutBody(s: seq<byte>, n: nat)
    requires n <= MAX_MESSAGE_SIZE && 4 <= |s| < 4 + n && s[..4] == Header(n)
    ensures Decode(s) == (Failed(BodyError), [])
  {
    LengthOfHeader(n);
  }

  lemma CutHeader(s: seq<byte>)
    requires |s| < 4
    ensures Decode(s) == (Failed(HeaderError), [])
  {
  }

  lemma CutKeepsHeader(header: seq<byte>, data: seq<byte>, k: nat)
    requires |header| == 4 <= k < 4 + |data|
    ensures |(header + data)[..k]| == k && (header + data)[..k][..4] == header
  {
  }

  /** A frame cut short is an error, never a shorter frame. */
  lemma CutFramesFail(data: seq<byte>, k: nat)
    requires |data| <= MAX_MESSAGE_SIZE && k < |Encode(data)|
    ensures Decode(Encode(data)[..k]) == (Failed(if k < 4 then HeaderError else BodyError), [])
  {
    var n := |data|;
    var header := Header(n);
    assert Encode(data) == header + data by {
      assert n % UINT32 == n;
    }
    if k < 4 {
      CutHeader(Encode(data)[..k]);
    } else {
      CutKeepsHeader(header, data, k);
      CutBody((header + data)[..k], n);
    }
  }

  /** One encoding is a prefix of another exactly when the wrapped lengths agree and the data extends. */
  lemma EncodingPrefixExactly(x: seq<byte>, y: seq<byte>)
    ensures Encode(x) <= Encode(y) <==> |x| % UINT32 == |y| % UINT32 && x <= y
  {
    var hx, hy := Header(|x| % UINT32), Header(|y| % UINT32);
    LengthOfHeader(|x| % UINT32);
    LengthOfHeader(|y| % UINT32);
    if Encode(x) <= Encode(y) {
      assert Encode(x)[..4] == Encode(y)[..4] && Encode(x)[4..] == x && Encode(y)[4..] == y;
      assert hx == hy;
    }
  }

  /** Below the wrap-around no encoding is a proper prefix of another. */
  lemma PrefixFree(x: seq<byte>, y: seq<byte>)
    requires |x| < UINT32 && |y| < UINT32 && Encode(x) <= Encode(y)
    ensures x == y
  {
    EncodingPrefixExactly(x, y);
  }

  // ----------------------------------------------------------------- whole streams

  function EncodeAll(msgs: seq<seq<byte>>): seq<byte> {
    if msgs == [] then [] else Encode(msgs[0]) + EncodeAll(msgs[1..])
  }

  /** Repeated reads until one fails: the frames, and the bytes the failing read started at. */
  function DecodeAll(s: seq<byte>): (seq<seq<byte>>, seq<byte>)
    decreases |s|
  {
    var (r, rest) := Decode(s);
    if r.Frame? then
      var (msgs, stop) := DecodeAll(rest);
      ([r.data] + msgs, stop)
    else ([], s)
  }

  /** A list of messages within the cap is read back as exactly that list, nothing left over. */
  lemma {:induction false} StreamRoundTrip(msgs: seq<seq<byte>>)
    requires forall i | 0 <= i < |msgs| :: |msgs[i]| <= MAX_MESSAGE_SIZE
    ensures DecodeAll(EncodeAll(msgs)) == (msgs, [])
  {
    if msgs != [] {
      StreamRoundTrip(msgs[1..]);
      FrameThenStream(msgs[0], EncodeAll(msgs[1..]), EncodeAll(msgs));
      assert [msgs[0]] + msgs[1..] == msgs;
    }
  }

  /** One message over the cap, and the list is not read back. */
  lemma {:induction false} StreamRoundTripExactly(msgs: seq<seq<byte>>)
    ensures DecodeAll(EncodeAll(msgs)) == (msgs, []) <==> forall i | 0 <= i < |msgs| :: |msgs[i]| <= MAX_MESSAGE_SIZE
  {
    if forall i | 0 <= i < |msgs| :: |msgs[i]| <= MAX_MESSAGE_SIZE {
      StreamRoundTrip(msgs);
    }
    if msgs != [] && DecodeAll(EncodeAll(msgs)) == (msgs, []) {
      ReadBackStep(msgs[0], EncodeAll(msgs[1..]), msgs);
      StreamRoundTripExactly(msgs[1..]);
      assert forall i | 0 < i < |msgs| :: msgs[i] == msgs[1..][i - 1];
    }
  }

  /** A message over the cap stops the reader: it keeps what came before, and none of what comes after. */
  lemma {:induction false} OversizeStopsTheReader(before: seq<seq<byte>>, big: seq<byte>, after: seq<byte>)
    requires forall i | 0 <= i < |before| :: |before[i]| <= MAX_MESSAGE_SIZE
    requires MAX_MESSAGE_SIZE < |big| < UINT32
    ensures DecodeAll(EncodeAll(before) + Encode(big) + after) == (before, Encode(big) + after)
  {
    if before == [] {
      OversizeIsRefused(big, after);
      assert EncodeAll(before) + Encode(big) + after == Encode(big) + after;
    } else {
      var rest := EncodeAll(before[1..]) + Encode(big) + after;
      OversizeStopsTheReader(before[1..], big, after);
      assert EncodeAll(before) + Encode(big) + after == Encode(before[0]) + rest;
      FrameThenStream(before[0], rest, Encode(before[0]) + rest);
      assert [before[0]] + before[1..] == before;
    }
  }

  lemma OversizeIsRefused(big: seq<byte>, after: seq<byte>)
    requires MAX_MESSAGE_SIZE < |big| < UINT32
    ensures Decode(Encode(big) + after).0 == Failed(TooLarge(|big|))
    ensures DecodeAll(Encode(big) + after) == ([], Encode(big) + after)
  {
    assert |big| % UINT32 == |big|;
    var s := Encode(big) + after;
    assert s[..4] == Header(|big|);
    LengthOfHeader(|big|);
  }

  lemma ReadBackStep(data: seq<byte>, rest: seq<byte>, msgs: seq<seq<byte>>)
    requires msgs != [] && msgs[0] == data && DecodeAll(Encode(data) + rest) == (msgs, [])
    ensures |data| <= MAX_MESSAGE_SIZE && DecodeAll(rest) == (msgs[1..], [])
  {
    var s := Encode(data) + rest;
    var (r, left) := Decode(s);
    assert r.Frame? && r.data == msgs[0];
    DecodedWasEncoded(s, data, left);
    assert left == s[|Encode(data)|..] == rest;
    assert DecodeAll(s) == ([data] + DecodeAll(rest).0, DecodeAll(rest).1);
    assert ([data] + DecodeAll(rest).0)[1..] == DecodeAll(rest).0;
  }

  lemma FrameThenStream(data: seq<byte>, rest: seq<byte>, s: seq<byte>)
    requires |data| <= MAX_MESSAGE_SIZE && s == Encode(data) + rest
    ensures DecodeAll(s) == ([data] + DecodeAll(rest).0, DecodeAll(rest).1)
  {
    EncodedDecodes(data, rest, s);
  }

  lemma {:induction false} EncodeAllConcat(a: seq<seq<byte>>, b: seq<seq<byte>>)
    ensures EncodeAll(a + b) == EncodeAll(a) + EncodeAll(b)
  {
    if a == [] {
      assert a + b == b;
    } else {
      assert (a + b)[1..] == a[1..] + b;
      EncodeAllConcat(a[1..], b);
    }
  }

  /** The client's message loop: show every frame until a read fails. However the bytes were
      chunked, what it shows depends only on their concatenation. */
  method RunMessageLoop(conn: Conn) returns (shown: seq<seq<byte>>)
    modifies conn`incoming
    ensures shown == DecodeAll(old(conn.Pending())).0
  {
    shown := [];
    ghost var all := conn.Pending();
    while true
      invariant DecodeAll(all).0 == shown + DecodeAll(conn.Pending()).0
      decreases |conn.Pending()|
    {
      ghost var before := conn.Pending();
      var r := ReadMessage(conn);
      if r.Failed? {
        return;
      }
      assert DecodeAll(before).0 == [r.data] + DecodeAll(conn.Pending()).0;
      shown := shown + [r.data];
    }
  }
}
