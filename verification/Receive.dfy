/**
 The two receive loops of imcomm_select (imcomm/imcomm.c): one octet per call, and a whole
 packet per call. Both deliver the units that the octet stream parses into.
 */
module Receive {
  import opened Bytes

  /** What flap_decode is called with: six octets of header and the data they announce. */
  datatype Unit = Unit(header: seq<byte>, data: seq<byte>)

  function DataLength(s: seq<byte>): nat
    requires |s| >= 6
  {
    Of16(s[4..6])
  }

  predicate Begins(s: seq<byte>) {
    |s| >= 6 && |s| >= 6 + DataLength(s)
  }

  function Head(s: seq<byte>): Unit
    requires Begins(s)
  {
    Unit(s[..6], s[6..6 + DataLength(s)])
  }

  function Tail(s: seq<byte>): seq<byte>
    requires Begins(s)
  {
    s[6 + DataLength(s)..]
  }

  /** The complete units of a stream... */
  function Units(s: seq<byte>): seq<Unit>
    decreases |s|
  {
    if Begins(s) then [Head(s)] + Units(Tail(s)) else []
  }

  /** ... and what is left over after them. */
  function Rest(s: seq<byte>): seq<byte>
    decreases |s|
  {
    if Begins(s) then Rest(Tail(s)) else s
  }

  /** No header announces zero octets of data, which neither loop can receive. */
  predicate Positive(s: seq<byte>)
    decreases |s|
  {
    |s| >= 6 ==> DataLength(s) > 0 && (Begins(s) ==> Positive(Tail(s)))
  }

  lemma {:induction false} RestIncomplete(s: seq<byte>)
    ensures !Begins(Rest(s)) && Units(Rest(s)) == [] && Rest(Rest(s)) == Rest(s)
    decreases |s|
  {
    if Begins(s) {
      RestIncomplete(Tail(s));
    }
  }

  /** Receiving more: the complete units stay, and the leftover is what the new octets continue. */
  lemma {:induction false} Extend(s: seq<byte>, x: seq<byte>)
    ensures Units(s + x) == Units(s) + Units(Rest(s) + x)
    ensures Rest(s + x) == Rest(Rest(s) + x)
    ensures Positive(s + x) <==> Positive(s) && Positive(Rest(s) + x)
    decreases |s|
  {
    if Begins(s) {
      assert (s + x)[4..6] == s[4..6];
      assert Head(s + x) == Head(s) && Tail(s + x) == Tail(s) + x;
      Extend(Tail(s), x);
    }
  }

  /** One octet either completes the unit that has begun, or leaves it incomplete. */
  lemma OneMore(rest: seq<byte>, b: byte)
    requires !Begins(rest)
    ensures var s := rest + [b];
            if Begins(s) then Units(s) == [Head(s)] && Rest(s) == [] && |s| == 6 + DataLength(s)
            else Units(s) == [] && Rest(s) == s
  {
    var s := rest + [b];
    if Begins(s) {
      assert |rest| >= 6 ==> rest[4..6] == s[4..6];
      assert Tail(s) == [];
    }
  }

  /** The handle's receiving state, read one octet at a time. */
  class ByteReceiver {
    const header: array<byte>
    var header_pos: nat
    var data: array<byte>
    var data_pos: nat
    var data_len: nat
    var delivered: seq<Unit>
    ghost var stream: seq<byte>  // everything received so far

    /** The buffers hold rest, the beginning of a unit. */
    ghost predicate Holds(rest: seq<byte>)
      reads this, header, data
    {
      && header.Length == 6 && data != header && header_pos <= 6 && !Begins(rest)
      && if |rest| < 6 then
           header_pos == |rest| && header[..header_pos] == rest
         else
           && header_pos == 6 && header[..] == rest[..6]
           && data_len == data.Length == DataLength(rest)
           && data_pos == |rest| - 6 && data[..data_pos] == rest[6..]
    }

    ghost predicate Valid()
      reads this, header, data
    {
      delivered == Units(stream) && Holds(Rest(stream))
    }

    constructor ()
      ensures Valid() && stream == [] && fresh(header) && fresh(data)
    {
      header := new byte[6];
      header_pos := 0;
      data := new byte[0];
      data_pos, data_len := 0, 0;
      delivered, stream := [], [];
    }

    /** The branch of imcomm_select that reads a header octet. */
    method HeaderOctet(b: byte, ghost rest: seq<byte>)
      requires Holds(rest) && header_pos < 6 && !Begins(rest + [b])
      modifies this, header
      ensures Holds(rest + [b]) && stream == old(stream) && delivered == old(delivered)
      ensures data == old(data) || fresh(data)
    {
      header[header_pos] := b;
      header_pos := header_pos + 1;
      assert header[..header_pos] == rest + [b];
      if header_pos == 6 {
        data_len := Of16(header[4..6]);
        data := new byte[data_len];
        data_pos := 0;
      }
    }

    /** The branch of imcomm_select that reads a data octet. */
    method DataOctet(b: byte, ghost rest: seq<byte>)
      requires Holds(rest) && header_pos == 6
      modifies this, data
      ensures stream == old(stream) && (data == old(data) || fresh(data))
      ensures var s := rest + [b];
              if Begins(s) then delivered == old(delivered) + [Head(s)] && Holds([])
              else delivered == old(delivered) && Holds(s)
    {
      ghost var s := rest + [b];
      assert s[4..6] == rest[4..6] && s[..6] == rest[..6];
      data[data_pos] := b;
      data_pos := data_pos + 1;
      assert data[..data_pos] == s[6..];
      if data_pos == data_len {
        assert data[..] == s[6..6 + DataLength(s)];
        delivered := delivered + [Unit(header[..], data[..])];
        data := new byte[0];
        header_pos := 0;
      }
    }

    /** One call of imcomm_select that receives the octet b. */
    method Octet(b: byte)
      requires Valid() && Positive(stream + [b])
      modifies this, header, data
      ensures Valid() && stream == old(stream) + [b]
      ensures data == old(data) || fresh(data)
    {
      ghost var rest := Rest(stream);
      Extend(stream, [b]);
      OneMore(rest, b);
      stream := stream + [b];
      if header_pos < 6 {
        HeaderOctet(b, rest);
      } else {
        DataOctet(b, rest);
      }
    }
  }

  /**
   The receiving end of a connection: the octets still to come, and an arbitrary rule for how
   many of them each recv hands over.
   */
  class Socket {
    var coming: seq<byte>
    var calls: nat
    const chunk: nat -> nat

    constructor (stream: seq<byte>, chunk: nat -> nat)
      ensures coming == stream
    {
      coming := stream;
      calls := 0;
      this.chunk := chunk;
    }

    /** recv into buffer + at: some octets, at least one and at most max. */
    method Recv(buffer: array<byte>, at: nat, max: nat) returns (n: nat)
      requires 0 < max <= |coming| && at + max <= buffer.Length
      modifies this, buffer
      ensures 0 < n <= max && coming == old(coming)[n..]
      ensures buffer[..at + n] == old(buffer[..at]) + old(coming)[..n]
    {
      n := 1 + chunk(calls) % max;
      calls := calls + 1;
      forall k | 0 <= k < n {
        buffer[at + k] := coming[k];
      }
      coming := coming[n..];
    }

    /** The do-while loop around recv: bytesread reaches the wanted length. */
    method RecvAll(buffer: array<byte>)
      requires 0 < buffer.Length <= |coming|
      modifies this, buffer
      ensures buffer[..] == old(coming)[..buffer.Length] && coming == old(coming)[buffer.Length..]
    {
      ghost var start := coming;
      var bytesread := this.Recv(buffer, 0, buffer.Length);
      while bytesread < buffer.Length
        invariant 0 < bytesread <= buffer.Length
        invariant buffer[..bytesread] == start[..bytesread] && coming == start[bytesread..]
      {
        ghost var before := bytesread;
        var n := this.Recv(buffer, bytesread, buffer.Length - bytesread);
        bytesread := bytesread + n;
        assert start[..bytesread] == start[..before] + start[before..][..n];
      }
    }

    /** One call of imcomm_select that receives a whole packet. */
    method ReceivePacket() returns (u: Unit)
      requires Begins(coming) && DataLength(coming) > 0
      modifies this
      ensures u == Head(old(coming)) && coming == Tail(old(coming))
    {
      ghost var start := coming;
      var header := new byte[6];
      RecvAll(header);
      assert header[4..6] == start[4..6];
      var data_len := Of16(header[4..6]);
      var data := new byte[data_len];
      RecvAll(data);
      u := Unit(header[..], data[..]);
    }

    /** The client's main loop, while whole packets keep coming. */
    method ReceiveAll() returns (delivered: seq<Unit>)
      requires Positive(coming)
      modifies this
      ensures delivered == Units(old(coming)) && coming == Rest(old(coming))
    {
      delivered := [];
      while |coming| >= 6 && |coming| >= 6 + Of16(coming[4..6])
        invariant Positive(coming) && Units(old(coming)) == delivered + Units(coming)
        invariant Rest(old(coming)) == Rest(coming)
        decreases |coming|
      {
        var u := ReceivePacket();
        delivered := delivered + [u];
      }
    }
  }
}
