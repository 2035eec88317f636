/** The length-prefixed frames both plugins exchange with the daemon. */
module DaemonFrames {
  import opened Bytes

  const MAX_FRAME_BYTES := 0x100_0000

  /** What the bytes received so far amount to. Bytes after the frame are ignored. */
  datatype Decoded = Pending | TooLong | Complete(body: seq<Byte>)

  function Decode(received: seq<Byte>): Decoded {
    if |received| < 4 then Pending
    else
      var length := GetU32(received, 0, true);
      if length > MAX_FRAME_BYTES then TooLong
      else if |received| < 4 + length then Pending
      else Complete(received[4..4 + length])
  }

  function Encode(body: seq<Byte>): seq<Byte>
    requires |body| <= MAX_FRAME_BYTES
  {
    PutU32(|body|) + body
  }

  /** A decision, once made, does not depend on what arrives later. */
  lemma DecisionIsFinal(received: seq<Byte>, more: seq<Byte>)
    requires Decode(received) != Pending
    ensures Decode(received + more) == Decode(received)
  {
    var all := received + more;
    assert all[0..4] == received[0..4];
    GetU32Slice(all, 0, 4, 0, true);
    GetU32Slice(received, 0, 4, 0, true);
    if Decode(received).Complete? {
      var length := GetU32(received, 0, true);
      assert all[4..4 + length] == received[4..4 + length];
    }
  }

  /** What bytes decode to, by their own count: the first four are the length of the body, most significant
      first; over 16 MiB is too long, and less than the whole body is not yet a frame. */
  lemma DecodesExactly(received: seq<Byte>)
    ensures |received| < 4 ==> Decode(received) == Pending
    ensures |received| >= 4 ==>
      var b: seq<int> := received[..4];
      var length := ((b[0] * 256 + b[1]) * 256 + b[2]) * 256 + b[3];
      && (Decode(received) == TooLong <==> length > 16 * 1024 * 1024)
      && (Decode(received).Complete? <==> length <= 16 * 1024 * 1024 && length <= |received| - 4)
      && (Decode(received).Complete? ==>
            && |Decode(received).body| == length
            && forall i :: 0 <= i < length ==> Decode(received).body[i] == received[4 + i])
  {
  }

  /** Decoding an encoded body returns it, whatever follows; every proper part of it is incomplete. */
  lemma DecodeInvertsEncode(body: seq<Byte>, trailing: seq<Byte>, cut: nat)
    requires |body| <= MAX_FRAME_BYTES && cut < |Encode(body)|
    ensures Decode(Encode(body) + trailing) == Complete(body)
    ensures Decode(Encode(body)[..cut]) == Pending
  {
    var frame := Encode(body);
    assert frame[0..4] == PutU32(|body|);
    GetU32Slice(frame, 0, 4, 0, true);
    assert frame[4..4 + |body|] == body;
    assert Decode(frame) == Complete(body);
    DecisionIsFinal(frame, trailing);
    if cut >= 4 {
      assert frame[..cut][0..4] == frame[0..4];
      GetU32Slice(frame[..cut], 0, 4, 0, true);
    }
  }

  // ---- the Hermes client: read exactly the header, then exactly the body ----

  /** What the socket has to offer, in order; after the last one the peer has closed. */
  datatype Arrival = Chunk(bytes: seq<Byte>) | TimedOut | Broken

  datatype ReadError = Closed | Timeout | Failed | Oversized

  datatype Result<+T> = Ok(value: T) | Err(error: ReadError)

  ghost predicate Arrivals(incoming: seq<Arrival>) {
    forall a <- incoming :: a.Chunk? ==> a.bytes != []
  }

  /** The bytes that can be read before anything goes wrong. */
  function Readable(incoming: seq<Arrival>): seq<Byte> {
    if incoming == [] || !incoming[0].Chunk? then [] else incoming[0].bytes + Readable(incoming[1..])
  }

  /** What ends the readable bytes. */
  function Ending(incoming: seq<Arrival>): ReadError {
    if incoming == [] then Closed
    else match incoming[0]
         case Chunk(_) => Ending(incoming[1..])
         case TimedOut => Timeout
         case Broken => Failed
  }

  class Socket {
    var incoming: seq<Arrival>

    constructor (incoming: seq<Arrival>)
      requires Arrivals(incoming)
      ensures this.incoming == incoming
    {
      this.incoming := incoming;
    }

    /** At most `n` bytes of what has arrived; none when the peer has closed. */
    method Recv(n: nat) returns (r: Result<seq<Byte>>)
      requires n > 0 && Arrivals(incoming)
      modifies this
      ensures Arrivals(incoming)
      ensures r.Ok? && r.value != [] ==>
        && |r.value| <= n
        && old(Readable(incoming)) == r.value + Readable(incoming) && Ending(incoming) == old(Ending(incoming))
      ensures r.Ok? && r.value == [] ==> old(Readable(incoming)) == [] && old(Ending(incoming)) == Closed
      ensures r.Err? ==> old(Readable(incoming)) == [] && r.error == old(Ending(incoming))
    {
      if incoming == [] {
        return Ok([]);
      }
      match incoming[0] {
        case TimedOut => return Err(Timeout);
        case Broken => return Err(Failed);
        case Chunk(bytes) =>
          if |bytes| <= n {
            incoming := incoming[1..];
            return Ok(bytes);
          }
          var rest := incoming[1..];
          incoming := [Chunk(bytes[n..])] + rest;
          assert incoming[1..] == rest;
          return Ok(bytes[..n]);
      }
    }

    /** Read `length` bytes, in however many pieces they come. */
    method ReadExact(length: nat) returns (r: Result<seq<Byte>>)
      requires Arrivals(incoming)
      modifies this
      ensures Arrivals(incoming)
      ensures r.Ok? <==> |old(Readable(incoming))| >= length
      ensures r.Ok? ==>
        && |r.value| == length && old(Readable(incoming)) == r.value + Readable(incoming)
        && Ending(incoming) == old(Ending(incoming))
      ensures r.Err? ==> r.error == old(Ending(incoming))
    {
      var bytes: seq<Byte> := [];
      var remaining := length;
      while remaining > 0
        invariant Arrivals(incoming) && 0 <= remaining && |bytes| + remaining == length
        invariant old(Readable(incoming)) == bytes + Readable(incoming)
        invariant Ending(incoming) == old(Ending(incoming))
      {
        ghost var before := Readable(incoming);
        var chunk := Recv(remaining);
        if chunk.Err? {
          return Err(chunk.error);
        }
        if chunk.value == [] {
          return Err(Closed);
        }
        assert bytes + before == (bytes + chunk.value) + Readable(incoming);
        bytes := bytes + chunk.value;
        remaining := remaining - |chunk.value|;
      }
      return Ok(bytes);
    }

    /** The daemon's reply: the decoding of the whole readable stream, however it is cut up. */
    method ReadReply() returns (r: Result<seq<Byte>>)
      requires Arrivals(incoming)
      modifies this
      ensures r == match old(Decode(Readable(incoming)))
                   case Complete(body) => Ok(body)
                   case TooLong => Err(Oversized)
                   case Pending => Err(old(Ending(incoming)))
    {
      ghost var all := Readable(incoming);
      var header := ReadExact(4);
      if header.Err? {
        return Err(header.error);
      }
      assert all[0..4] == header.value[0..4];
      GetU32Slice(all, 0, 4, 0, true);
      GetU32Slice(header.value, 0, 4, 0, true);
      var declared := GetU32(header.value, 0, true);
      if declared > MAX_FRAME_BYTES {
        return Err(Oversized);
      }
      ghost var rest := Readable(incoming);
      var body := ReadExact(declared);
      if body.Err? {
        return Err(body.error);
      }
      assert all[4..] == rest;
      assert all[4..4 + declared] == rest[..declared] == body.value;
      return Ok(body.value);
    }
  }
}
