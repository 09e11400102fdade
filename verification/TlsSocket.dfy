/**
  Framing of messages on a TLS connection (DnsTlsSocket.cpp): a 16-bit length, then the message
  (section 4.2.2 of RFC 1035).
 */
module Frames {
  import opened Bytes

  const MAX_SIZE: nat := 8192

  /** The stream starts with a whole frame. */
  predicate HasFrame(stream: seq<byte>)
  {
    |stream| >= 2 && |stream| >= 2 + Be16At(stream, 0)
  }

  /** The stream starts with `n` whole frames. */
  predicate HasFrames(stream: seq<byte>, n: nat)
    decreases n
  {
    n == 0 || (HasFrame(stream) && HasFrames(Rest(stream), n - 1))
  }

  function Body(stream: seq<byte>): (m: seq<byte>)
    requires HasFrame(stream)
  {
    stream[2..2 + Be16At(stream, 0)]
  }

  function Rest(stream: seq<byte>): (r: seq<byte>)
    requires HasFrame(stream)
    ensures |r| < |stream|
  {
    stream[2 + Be16At(stream, 0)..]
  }

  /** What is kept of an overlong message. */
  function Clip(m: seq<byte>): (r: seq<byte>)
  {
    if |m| <= MAX_SIZE then m else m[..MAX_SIZE]
  }

  /** The messages are those of the first frames of `stream`, in order, and `rest` is what follows. */
  ghost predicate Decodes(stream: seq<byte>, messages: seq<seq<byte>>, rest: seq<byte>)
    decreases |messages|
  {
    if messages == [] then rest == stream
    else HasFrame(stream) && messages[0] == Clip(Body(stream)) && Decodes(Rest(stream), messages[1..], rest)
  }

  /** What `query` puts in the queue: the length is the low 16 bits of the message's length. */
  function Frame(id: nat, body: seq<byte>): (r: seq<byte>)
  {
    Octets16(|body| + 2) + Octets16(id) + body
  }

  /** The query with its first two octets replaced. */
  function Renumbered(query: seq<byte>, id: nat): (r: seq<byte>)
    requires |query| >= 2
    ensures |r| == |query|
  {
    Octets16(id) + query[2..]
  }

  // ---------------------------------------------------------------------------

  /**
    Decoding what was written for a query gives the query back with only its ID replaced, and
    leaves exactly what follows the frame, iff the query is no longer than 65535 octets.
   */
  lemma FrameRoundTripIff(query: seq<byte>, id: nat, rest: seq<byte>)
    requires |query| >= 2
    ensures var s := Frame(id, query[2..]) + rest;
      HasFrame(s) && Body(s) == Renumbered(query, id) && Rest(s) == rest <==> |query| <= 0xffff
  {
    hide Hi, Lo;
    var s := Frame(id, query[2..]) + rest;
    HiLo(|query|);
    assert Be16At(s, 0) == |query| % 0x1_0000;
    assert |s| == 2 + |query| + |rest|;
    if |query| <= 0xffff {
      assert s[2..2 + |query|] == Renumbered(query, id);
      assert s[2 + |query|..] == rest;
    }
  }

  function FramesOf(queries: seq<seq<byte>>, ids: seq<nat>): (r: seq<byte>)
    requires |ids| == |queries| && forall i :: 0 <= i < |queries| ==> |queries[i]| >= 2
  {
    if queries == [] then [] else Frame(ids[0], queries[0][2..]) + FramesOf(queries[1..], ids[1..])
  }

  function AllRenumbered(queries: seq<seq<byte>>, ids: seq<nat>): (r: seq<seq<byte>>)
    requires |ids| == |queries| && forall i :: 0 <= i < |queries| ==> |queries[i]| >= 2
  {
    if queries == [] then [] else [Clip(Renumbered(queries[0], ids[0]))] + AllRenumbered(queries[1..], ids[1..])
  }

  /** A connection of framed queries decodes to exactly those queries, renumbered, in order. */
  lemma {:induction false} StreamRoundTrip(queries: seq<seq<byte>>, ids: seq<nat>)
    requires |ids| == |queries| && forall i :: 0 <= i < |queries| ==> 2 <= |queries[i]| <= 0xffff
    ensures Decodes(FramesOf(queries, ids), AllRenumbered(queries, ids), [])
  {
    if queries != [] {
      FrameRoundTripIff(queries[0], ids[0], FramesOf(queries[1..], ids[1..]));
      StreamRoundTrip(queries[1..], ids[1..]);
      assert AllRenumbered(queries, ids)[1..] == AllRenumbered(queries[1..], ids[1..]);
    }
  }

  lemma {:induction false} DecodesMore(s: seq<byte>, messages: seq<seq<byte>>, t: seq<byte>)
    requires Decodes(s, messages, t) && HasFrame(t)
    ensures Decodes(s, messages + [Clip(Body(t))], Rest(t))
  {
    var more := messages + [Clip(Body(t))];
    if messages == [] {
      assert more[1..] == [];
    } else {
      DecodesMore(Rest(s), messages[1..], t);
      assert more[1..] == messages[1..] + [Clip(Body(t))];
    }
  }
}

module TlsSocket {
  import opened Bytes
  import opened Frames

  /** One call of `SSL_read`. `Give` hands over up to `most` of the octets asked for. */
  datatype Reading = Give(most: nat) | Closed | WantRead(pollOk: bool) | Failed(code: nat)

  /** Reads that will all give something, now or after waiting. */
  predicate Willing(script: seq<Reading>)
  {
    forall i :: 0 <= i < |script| ==> (script[i].Give? && script[i].most > 0) || script[i] == WantRead(true)
  }

  /** Reads that give something at once. */
  predicate AllGive(script: seq<Reading>)
  {
    forall i :: 0 <= i < |script| ==> script[i].Give? && script[i].most > 0
  }

  lemma {:induction false} AllGiveCount(script: seq<Reading>)
    requires AllGive(script)
    ensures Willing(script) && Gives(script) == |script|
  {
    if script != [] { AllGiveCount(script[1..]); }
  }

  /** The number of reads that give something. */
  function Gives(script: seq<Reading>): (n: nat)
  {
    if script == [] then 0 else (if script[0].Give? then 1 else 0) + Gives(script[1..])
  }

  const NONE: nat := 0
  const WANT_READ: nat := 2
  const SYSCALL: nat := 5
  const ZERO_RETURN: nat := 6

  const CHUNK_SIZE: nat := 2048

  class DnsTlsSocket {
    /** What the server has yet to deliver, and how the coming reads will go. */
    var stream: seq<byte>
    var script: seq<Reading>
    /** What the observer was given. */
    var delivered: seq<seq<byte>>
    /** The frames queued for sending. */
    var queue: seq<seq<byte>>

    ghost predicate Valid()
      reads this
    {
      forall i :: 0 <= i < |script| && script[i].Failed? ==> script[i].code != NONE && script[i].code != WANT_READ
    }

    constructor (stream: seq<byte>, script: seq<Reading>)
      requires forall i :: 0 <= i < |script| && script[i].Failed? ==>
                 script[i].code != NONE && script[i].code != WANT_READ
      ensures Valid() && this.stream == stream && this.script == script && delivered == [] && queue == []
    {
      this.stream, this.script, delivered, queue := stream, script, [], [];
    }

    /**
      `query`. The queue pushes at the front, and keeps the frame even if its loop cannot be woken
      (`woken` is the outcome of writing to the event descriptor).
     */
    method Query(id: nat, query: seq<byte>, woken: bool) returns (sent: bool)
      requires id < 0x1_0000
      modifies this`queue
      ensures sent == woken && queue == [Frame(id, query)] + old(queue)
    {
      var buf := new byte[|query| + 4];
      var len := (|query| + 2) % 0x1_0000;
      buf[0], buf[1] := len / 256, len % 256;
      buf[2], buf[3] := id / 256, id % 256;
      for i := 0 to |query|
        invariant buf[0] == len / 256 && buf[1] == len % 256 && buf[2] == id / 256 && buf[3] == id % 256
        invariant queue == old(queue) && forall k :: 0 <= k < i ==> buf[4 + k] == query[k]
      {
        buf[4 + i] := query[i];
      }
      hide Hi, Lo;
      LengthOctets(|query| + 2, len);
      LengthOctets(id, id);
      assert buf[4..] == query;
      var frame := buf[..];
      assert frame == Octets16(|query| + 2) + Octets16(id) + query;
      queue := [frame] + queue;
      return woken;
    }

    /** One read of at least one octet; the script's end and the end of the stream read as closed. */
    method SslReadOnce(buffer: array<byte>, at: nat) returns (reading: Reading, n: nat)
      requires Valid() && at < buffer.Length
      modifies this`stream, this`script, buffer
      ensures Valid() && |script| <= |old(script)| && (AllGive(old(script)) ==> AllGive(script))
      ensures reading.Give? ==>
                && 1 <= n <= buffer.Length - at && n <= |old(stream)| && |script| < |old(script)|
                && stream == old(stream)[n..] && buffer[at..at + n] == old(stream)[..n]
      ensures reading.WantRead? ==> |script| < |old(script)|
      ensures !reading.Give? ==> stream == old(stream) && buffer[..] == old(buffer[..])
      ensures reading.Failed? ==> reading.code != NONE && reading.code != WANT_READ
      ensures buffer[..at] == old(buffer[..at])
      ensures Willing(old(script)) && Gives(old(script)) > 0 && old(stream) != [] ==>
                && Willing(script) && (reading.Give? || reading == WantRead(true))
                && (reading.Give? <==> old(script)[0].Give?)
                && Gives(script) == Gives(old(script)) - if reading.Give? then 1 else 0
    {
      if script == [] { return Closed, 0; }
      reading, n := script[0], 0;
      script := script[1..];
      if reading.Give? {
        if stream == [] || reading.most == 0 { return Closed, 0; }
        n := Min(reading.most, Min(buffer.Length - at, |stream|));
        forall i | 0 <= i < n { buffer[at + i] := stream[i]; }
        stream := stream[n..];
      }
    }

    /**
      `sslRead`: fill the buffer or fail. Reads may come in any portions; "try again" is answered
      only to a caller that does not wait, and only if nothing was read.
     */
    method SslRead(buffer: array<byte>, mayWait: bool) returns (err: nat)
      requires Valid()
      modifies this`stream, this`script, buffer
      ensures Valid() && (AllGive(old(script)) ==> AllGive(script))
      ensures err == NONE ==> |old(stream)| >= buffer.Length
      ensures err == NONE ==> buffer[..] == old(stream)[..buffer.Length] && stream == old(stream)[buffer.Length..]
      ensures err == WANT_READ ==> !mayWait && stream == old(stream)
      ensures Willing(old(script)) && Gives(old(script)) >= buffer.Length && |old(stream)| >= buffer.Length
              && (mayWait || buffer.Length == 0 || old(script)[0].Give?) ==>
                err == NONE && Willing(script) && Gives(script) + buffer.Length >= Gives(old(script))
    {
      ghost var enough := Willing(script) && Gives(script) >= buffer.Length && |stream| >= buffer.Length
                          && (mayWait || buffer.Length == 0 || script[0].Give?);
      var wait := mayWait;
      var remaining: nat := buffer.Length;
      while remaining > 0
        invariant Valid() && remaining <= buffer.Length <= |old(stream)| + remaining
        invariant AllGive(old(script)) ==> AllGive(script)
        invariant var done := buffer.Length - remaining;
          stream == old(stream)[done..] && buffer[..done] == old(stream)[..done]
        invariant (mayWait ==> wait) && (!wait ==> remaining == buffer.Length)
        invariant enough ==> Willing(script) && Gives(script) + buffer.Length - remaining >= Gives(old(script))
        invariant enough && !wait ==> script == old(script)
        decreases |script|, remaining
      {
        var done := buffer.Length - remaining;
        var reading, n := SslReadOnce(buffer, done);
        if reading.Closed? { return ZERO_RETURN; }
        if reading.WantRead? {
          if !wait { return WANT_READ; }
          if !reading.pollOk { return SYSCALL; }
        } else if reading.Failed? {
          return reading.code;
        } else {
          assert buffer[..done + n] == buffer[..done] + buffer[done..done + n];
          remaining := remaining - n;
          wait := true;
        }
      }
      return NONE;
    }

    /** Drop the rest of an overlong message, a chunk at a time. */
    method Discard(count: nat) returns (ok: bool)
      requires Valid()
      modifies this`stream, this`script
      ensures Valid() && (AllGive(old(script)) ==> AllGive(script))
      ensures ok ==> |old(stream)| >= count && stream == old(stream)[count..]
      ensures Willing(old(script)) && Gives(old(script)) >= count && |old(stream)| >= count ==>
                ok && Willing(script) && Gives(script) + count >= Gives(old(script))
    {
      ghost var enough := Willing(script) && Gives(script) >= count && |stream| >= count;
      var remaining: nat := count;
      while remaining > 0
        invariant Valid() && remaining <= count <= |old(stream)| + remaining
        invariant AllGive(old(script)) ==> AllGive(script)
        invariant stream == old(stream)[count - remaining..]
        invariant enough ==> Willing(script) && Gives(script) + count - remaining >= Gives(old(script))
      {
        var discard := new byte[Min(remaining, CHUNK_SIZE)];
        var err := SslRead(discard, true);
        if err != NONE { return false; }
        remaining := remaining - discard.Length;
      }
      return true;
    }

    /** `readResponse`: success consumes nothing and delivers nothing, or consumes one frame and delivers it. */
    method ReadResponse() returns (ok: bool)
      requires Valid()
      modifies this`stream, this`script, this`delivered
      ensures Valid() && (AllGive(old(script)) ==> AllGive(script))
      ensures !ok ==> delivered == old(delivered)
      ensures ok ==>
                || (stream == old(stream) && delivered == old(delivered))
                || (&& HasFrame(old(stream)) && stream == Rest(old(stream))
                    && delivered == old(delivered) + [Clip(Body(old(stream)))])
      ensures Willing(old(script)) && old(script) != [] && old(script)[0].Give? && HasFrame(old(stream))
              && Gives(old(script)) >= 2 + |Body(old(stream))| ==>
                && ok && stream == Rest(old(stream)) && delivered == old(delivered) + [Clip(Body(old(stream)))]
                && Willing(script) && Gives(script) + 2 + |Body(old(stream))| >= Gives(old(script))
    {
      hide Be16At;
      var header := new byte[2];
      var err := SslRead(header, false);
      if err == WANT_READ { return true; }
      if err != NONE { return false; }
      var size := Be16At(header[..], 0);
      SameLength(header[..], old(stream));
      var response := new byte[Min(size, MAX_SIZE)];
      err := SslRead(response, true);
      if err != NONE { return false; }
      ok := Discard(size - response.Length);
      if !ok { return false; }
      assert response[..] == old(stream)[2..][..response.Length] == Clip(Body(old(stream)));
      delivered := delivered + [response[..]];
    }

    /** The loop that answers wake-ups: as long as reads succeed, the observer gets the frames in order. */
    method ReadResponses(wakeups: nat) returns (ok: bool)
      requires Valid() && delivered == []
      modifies this`stream, this`script, this`delivered
      ensures Valid()
      ensures ok ==> Decodes(old(stream), delivered, stream)
      ensures AllGive(old(script)) && |old(script)| >= |old(stream)| && HasFrames(old(stream), wakeups) ==>
                ok && |delivered| == wakeups
    {
      ghost var enough := AllGive(script) && |script| >= |stream| && HasFrames(stream, wakeups);
      for i := 0 to wakeups
        invariant Valid() && Decodes(old(stream), delivered, stream)
        invariant enough ==>
                    && AllGive(script) && |script| >= |stream|
                    && HasFrames(stream, wakeups - i) && |delivered| == i
      {
        ghost var before, got := stream, delivered;
        if enough { AllGiveCount(script); }
        ok := ReadResponse();
        if !ok { return; }
        if delivered != got { DecodesMore(old(stream), got, before); }
        if enough { AllGiveCount(script); }
      }
      ok := true;
    }
  }

  lemma SameLength(header: seq<byte>, stream: seq<byte>)
    requires |header| == 2 <= |stream| && header == stream[..2]
    ensures Be16At(header, 0) == Be16At(stream, 0)
  {
  }

  lemma LengthOctets(v: nat, len: nat)
    requires len == v % 0x1_0000
    ensures Hi(v) == len / 256 && Lo(v) == len % 256
  {
    var h, q := v / 256, v / 0x1_0000;
    assert v == h * 256 + v % 256;
    assert h / 256 == q;
    assert h == q * 256 + h % 256;
    assert v == q * 0x1_0000 + len;
    assert len == (h % 256) * 256 + v % 256;
  }
}
