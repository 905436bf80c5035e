/** The events of a connection that reach the rosters, one by one and over whole runs. */
module Events {
  import opened Bytes
  import opened Names
  import opened Tlvs
  import opened Directory
  import opened Im
  import opened Session
  import opened Wrappers

  datatype Event =
    | SignedOn(data: seq<byte>)
    | SignedOff(data: seq<byte>)
    | Incoming(data: seq<byte>)
    | Deleted(sn: Name)
    | Reconnected

  /** The user classes that mean away. */
  predicate AwayClass(userClass: byte) { userClass == 0x30 || userClass == 0x31 || userClass == 0x24 }

  /** What snac_get_signon takes for granted about the TLVs. */
  ghost predicate StatusReadable(ts: seq<Tlv>) {
    && TimesReadable(ts)
    && forall t | t in ts && (t.kind == 0x0001 || t.kind == 0x0004) :: |t.value| >= 2
  }

  /** What the TLVs of a sign-on say about the buddy: the last word about idle time, any word about being away. */
  function Status(ts: seq<Tlv>): Info
    requires StatusReadable(ts)
  {
    if ts == [] then Info(false, 0)
    else
      var front, t := Status(ts[..|ts| - 1]), ts[|ts| - 1];
      if t.kind == 0x0004 then front.(idletime := Of16(t.value[..2]))
      else if t.kind == 0x0001 && AwayClass(t.value[1]) then front.(away := true)
      else front
  }

  lemma StatusSnoc(ts: seq<Tlv>, k: nat)
    requires k < |ts| && StatusReadable(ts)
    ensures StatusReadable(ts[..k]) && StatusReadable(ts[..k + 1])
    ensures (ts[k].kind == 0x0001 || ts[k].kind == 0x0004 ==> |ts[k].value| >= 2)
            && (ts[k].kind == 0x0003 ==> |ts[k].value| >= 4)
    ensures Status(ts[..k + 1]) ==
            var front, t := Status(ts[..k]), ts[k];
            if t.kind == 0x0004 then front.(idletime := Of16(t.value[..2]))
            else if t.kind == 0x0001 && AwayClass(t.value[1]) then front.(away := true)
            else front
  {
    assert ts[..k + 1][..k] == ts[..k];
  }

  /** Away is whether any TLV 1 has one of the classes for it. */
  lemma {:induction false} StatusAway(ts: seq<Tlv>)
    requires StatusReadable(ts)
    ensures Status(ts).away <==>
            exists t | t in ts && t.kind == 0x0001 :: t.value[1] == 0x30 || t.value[1] == 0x31 || t.value[1] == 0x24
  {
    if ts != [] {
      var front, t := ts[..|ts| - 1], ts[|ts| - 1];
      StatusAway(front);
      assert ts == front + [t];
    }
  }

  lemma {:induction false} NoIdle(ts: seq<Tlv>)
    requires StatusReadable(ts) && forall t | t in ts :: t.kind != 0x0004
    ensures Status(ts).idletime == 0
  {
    if ts != [] {
      assert ts[|ts| - 1] in ts;
      NoIdle(ts[..|ts| - 1]);
      hide AwayClass, TimesReadable;
    }
  }

  lemma {:induction false} LastIdle(ts: seq<Tlv>, k: nat)
    requires StatusReadable(ts) && k < |ts| && ts[k].kind == 0x0004
    requires forall j | k < j < |ts| :: ts[j].kind != 0x0004
    ensures |ts[k].value| >= 2 && Status(ts).idletime == 0x100 * ts[k].value[0] as int + ts[k].value[1] as int
  {
    hide AwayClass, TimesReadable;
    assert ts[k] in ts && |ts[k].value| >= 2;
    if k < |ts| - 1 {
      assert StatusReadable(ts[..|ts| - 1]) by {
        StatusSnoc(ts, |ts| - 1);
      }
      LastIdle(ts[..|ts| - 1], k);
    }
  }

  /** The idle time is that of the last TLV 4, and 0 without one. */
  lemma StatusIdle(ts: seq<Tlv>)
    requires StatusReadable(ts)
    ensures (forall t | t in ts :: t.kind != 0x0004) ==> Status(ts).idletime == 0
    ensures forall k | 0 <= k < |ts| && ts[k].kind == 0x0004 && (forall j | k < j < |ts| :: ts[j].kind != 0x0004) ::
              |ts[k].value| >= 2 && Status(ts).idletime == 0x100 * ts[k].value[0] as int + ts[k].value[1] as int
  {
    hide Status;
    if forall t | t in ts :: t.kind != 0x0004 {
      NoIdle(ts);
    }
    forall k | 0 <= k < |ts| && ts[k].kind == 0x0004 && (forall j | k < j < |ts| :: ts[j].kind != 0x0004)
      ensures |ts[k].value| >= 2 && Status(ts).idletime == 0x100 * ts[k].value[0] as int + ts[k].value[1] as int
    {
      LastIdle(ts, k);
    }
  }

  /** The name that an arrival or departure begins with. */
  function Buddy(data: seq<byte>): Name
    requires |data| > 10 && |data| >= 11 + data[10] as int
  {
    data[11..11 + data[10]]
  }

  ghost predicate Understood(event: Event) {
    match event
    case SignedOn(data) =>
      && 10 < |data| < 0x1_0000 && |data| >= 15 + data[10] as int
      && var ts := Parse(data[15 + data[10]..]);
      && ts.Some? && StatusReadable(ts.value)
    case SignedOff(data) => |data| > 10 && |data| >= 11 + data[10] as int
    case Incoming(data) => Readable(data)
    case Deleted(_) => true
    case Reconnected => true
  }

  /** What an event makes of what was known about a name. */
  function After(event: Event, n: Name, before: Option<Info>): Option<Info>
    requires Understood(event)
  {
    match event
    case SignedOn(data) =>
      if n == Simplify(Buddy(data)) then Some(Status(Parse(data[15 + data[10]..]).value)) else before
    case SignedOff(data) => if n == Simplify(Buddy(data)) then None else before
    case Incoming(data) =>
      if n == Simplify(SenderOf(data)) && before.Some? && !HasEmpty4(Parse(TlvsOf(data)).value)
      then Some(before.value.(idletime := 0)) else before
    case Deleted(sn) => if n == Simplify(sn) then None else before
    case Reconnected => None
  }

  /** The loop of snac_get_signon over the TLVs. */
  method ReadStatus(c: Connection, host: Host, sn: Name, ts: seq<Tlv>)
    returns (idletime: nat, onlinetime: nat, isaway: bool)
    requires c.Valid() && c.Agree() && StatusReadable(ts)
    modifies c.lib`entries, c.lib.nodes`onlinetime
    ensures c.Valid() && c.Agree() && forall n :: c.Online(n) == old(c.Online(n))
    ensures Status(ts) == Info(isaway, idletime)
  {
    idletime, onlinetime, isaway := 0, 0, false;
    assert Status(ts[..0]) == Info(false, 0);
    for k := 0 to |ts|
      invariant c.Valid() && c.Agree() && forall n :: c.Online(n) == old(c.Online(n))
      invariant Status(ts[..k]) == Info(isaway, idletime)
    {
      StatusSnoc(ts, k);
      assert |ts[k].value| >= 2 ==> (AwayClass(ts[k].value[1]) <==>
             ts[k].value[1] == 0x30 || ts[k].value[1] == 0x31 || ts[k].value[1] == 0x24);
      hide *;
      if ts[k].kind == 0x0004 {
        idletime := TwoTo16(host, ts[k].value);
      }
      if ts[k].kind == 0x0001 && (ts[k].value[1] == 0x30 || ts[k].value[1] == 0x31 || ts[k].value[1] == 0x24) {
        isaway := true;
      }
      if ts[k].kind == 0x0003 {
        onlinetime := FourTo32(host, ts[k].value);
        c.UpdateOnlineTime(sn, onlinetime);
      }
    }
    assert ts[..|ts|] == ts;
  }

  /** The rest of snac_get_signon: the status goes into both rosters, whether or not the buddy was there. */
  method Announce(c: Connection, sn: Name, idletime: nat, onlinetime: nat, isaway: bool)
    requires c.Valid() && c.Agree()
    modifies c.lib, c.lib.nodes, c.client, c.client.nodes
    ensures c.Valid() && c.Agree()
    ensures forall i | 0 <= i < |c.lib.nodes| :: c.lib.nodes[i] in old(c.lib.nodes) || fresh(c.lib.nodes[i])
    ensures forall i | 0 <= i < |c.client.nodes| :: c.client.nodes[i] in old(c.client.nodes) || fresh(c.client.nodes[i])
    ensures forall n :: c.Online(n) == if n == Simplify(sn) then Some(Info(isaway, idletime)) else old(c.Online(n))
  {
    hide Simplify, Connection.Online, Connection.Shown, Connection.Valid, Flagged;
    var added := c.AddToLibrary(sn, idletime, onlinetime, isaway);
    if !added {
      c.RefreshIdle(sn, idletime);
      c.RefreshAway(sn, isaway);
    } else {
      ghost var left := c.BuddyOnline(sn);
      c.BuddyIdle(sn, idletime);
      if isaway {
        c.BuddyAway(sn, true);
      }
    }
  }

  /** snac_get_signon. */
  method SignOn(c: Connection, host: Host, data: seq<byte>)
    requires c.Valid() && c.Agree() && Understood(SignedOn(data))
    modifies c.lib, c.lib.nodes, c.client, c.client.nodes
    ensures c.Valid() && c.Agree()
    ensures forall i | 0 <= i < |c.lib.nodes| :: c.lib.nodes[i] in old(c.lib.nodes) || fresh(c.lib.nodes[i])
    ensures forall i | 0 <= i < |c.client.nodes| :: c.client.nodes[i] in old(c.client.nodes) || fresh(c.client.nodes[i])
    ensures forall n | n != Simplify(data[11..11 + data[10]]) :: c.Online(n) == old(c.Online(n))
    ensures var ts, now := Parse(data[15 + data[10]..]).value, c.Online(Simplify(data[11..11 + data[10]]));
            && now.Some?
            && (now.value.away <==>
                exists t | t in ts && t.kind == 0x0001 ::
                  |t.value| >= 2 && (t.value[1] == 0x30 || t.value[1] == 0x31 || t.value[1] == 0x24))
            && ((forall t | t in ts :: t.kind != 0x0004) ==> now.value.idletime == 0)
            && forall k | 0 <= k < |ts| && ts[k].kind == 0x0004 && (forall j | k < j < |ts| :: ts[j].kind != 0x0004) ::
                 |ts[k].value| >= 2
                 && now.value.idletime == 0x100 * ts[k].value[0] as int + ts[k].value[1] as int
    ensures forall n :: c.Online(n) == After(SignedOn(data), n, old(c.Online(n)))
  {
    hide Simplify, Connection.Online, Connection.Shown, Connection.Valid, Connection.Agree, Flagged, Parse, Status;
    var len: nat := data[10];
    var numtlv := TwoTo16(host, data[13 + len..]);
    var sn := data[11..11 + len];
    var ts := Split(host, data[15 + len..], numtlv);
    StatusAway(ts);
    StatusIdle(ts);
    var idletime, onlinetime, isaway := ReadStatus(c, host, sn, ts);
    Announce(c, sn, idletime, onlinetime, isaway);
  }

  /** snac_get_signoff. */
  method SignOff(c: Connection, data: seq<byte>)
    requires c.Valid() && c.Agree() && Understood(SignedOff(data))
    modifies c.lib, c.lib.nodes, c.client, c.client.nodes
    ensures c.Valid() && c.Agree()
    ensures forall i | 0 <= i < |c.lib.nodes| :: c.lib.nodes[i] in old(c.lib.nodes)
    ensures forall i | 0 <= i < |c.client.nodes| :: c.client.nodes[i] in old(c.client.nodes)
    ensures forall n :: c.Online(n) == if n == Simplify(data[11..11 + data[10]]) then None else old(c.Online(n))
  {
    Forget(c, data[11..11 + data[10]]);
  }

  /** Leaving both rosters: the rest of snac_get_signoff, and what input_delete_buddy does to them. */
  method Forget(c: Connection, sn: Name)
    requires c.Valid() && c.Agree()
    modifies c.lib, c.lib.nodes, c.client, c.client.nodes
    ensures c.Valid() && c.Agree()
    ensures forall i | 0 <= i < |c.lib.nodes| :: c.lib.nodes[i] in old(c.lib.nodes)
    ensures forall i | 0 <= i < |c.client.nodes| :: c.client.nodes[i] in old(c.client.nodes)
    ensures forall n :: c.Online(n) == if n == Simplify(sn) then None else old(c.Online(n))
  {
    hide Simplify, Connection.Online, Connection.Shown, Connection.Valid, Flagged;
    c.DeleteFromLibrary(sn);
    c.BuddyOffline(sn);
  }

  /** snac_get_incoming_im: what a message does to the rosters. */
  method IncomingMessage(c: Connection, host: Host, data: seq<byte>) returns (d: Delivery)
    requires c.Valid() && c.Agree() && Understood(Incoming(data))
    modifies c.lib`entries, c.lib.nodes, c.client`entries, c.client.nodes
    ensures c.Valid() && c.Agree()
    ensures forall n :: c.Online(n) ==
              if n == Simplify(data[21..21 + data[20]]) && old(c.Online(n)).Some?
                 && Tlv(0x0004, []) !in Parse(data[25 + data[20] as int..]).value
              then Some(old(c.Online(n)).value.(idletime := 0)) else old(c.Online(n))
  {
    var e: Effects;
    d, e := GetIncomingIm(host, data);
    hide Connection.Online, Connection.Shown, Connection.Valid, Connection.Agree, Readable, Simplify, Parse, HasEmpty4,
         OnlineTimes, Text;
    Absorb(c, data[21..21 + data[20]], e);
  }

  /** The effects of a message on the rosters. */
  method Absorb(c: Connection, sn: Name, e: Effects)
    requires c.Valid() && c.Agree()
    modifies c.lib`entries, c.lib.nodes, c.client`entries, c.client.nodes
    ensures c.Valid() && c.Agree()
    ensures forall n :: c.Online(n) ==
              if e.resetIdle && n == Simplify(sn) && old(c.Online(n)).Some?
              then Some(old(c.Online(n)).value.(idletime := 0)) else old(c.Online(n))
  {
    hide Connection.Online, Connection.Shown, Connection.Valid, Connection.Agree, Simplify;
    RefreshTimes(c, sn, e.onlineTimes);
    if e.resetIdle {
      c.RefreshIdle(sn, 0);
    }
  }

  /** The sign-on times among an incoming message's TLVs. */
  method RefreshTimes(c: Connection, sn: Name, times: seq<uint32>)
    requires c.Valid() && c.Agree()
    modifies c.lib`entries, c.lib.nodes`onlinetime
    ensures c.Valid() && c.Agree() && forall n :: c.Online(n) == old(c.Online(n))
  {
    for k := 0 to |times|
      invariant c.Valid() && c.Agree() && forall n :: c.Online(n) == old(c.Online(n))
    {
      hide *;
      c.UpdateOnlineTime(sn, times[k]);
    }
  }

  /** One event, by the function that handles it. */
  method Handle(c: Connection, host: Host, event: Event)
    requires c.Valid() && c.Agree() && Understood(event)
    modifies c, c.lib, c.lib.nodes, c.client, c.client.nodes
    ensures c.Valid() && c.Agree()
    ensures (c.lib == old(c.lib) || fresh(c.lib)) && c.client == old(c.client)
    ensures forall i | 0 <= i < |c.lib.nodes| :: c.lib.nodes[i] in old(c.lib.nodes) || fresh(c.lib.nodes[i])
    ensures forall i | 0 <= i < |c.client.nodes| ::
              c.client.nodes[i] in old(c.client.nodes) || fresh(c.client.nodes[i])
    ensures forall n :: c.Online(n) == After(event, n, old(c.Online(n)))
  {
    hide Connection.Online, Connection.Shown, Connection.Valid, Connection.Agree, Understood;
    match event
    case SignedOn(data) => SignOn(c, host, data);
    case SignedOff(data) => SignOff(c, data);
    case Incoming(data) => var d := IncomingMessage(c, host, data);
    case Deleted(sn) => Forget(c, sn);
    case Reconnected => c.Reconnect();
  }

  /** What a run of events makes of what was known about a name. */
  function Replay(events: seq<Event>, n: Name, before: Option<Info>): Option<Info>
    requires forall e | e in events :: Understood(e)
  {
    if events == [] then before
    else After(events[|events| - 1], n, Replay(events[..|events| - 1], n, before))
  }

  // What a run leaves, read off its events.

  /** A sign-on packet of this name. */
  ghost predicate Arrives(e: Event, n: Name)
    requires Understood(e)
  {
    e.SignedOn? && Simplify(e.data[11..11 + e.data[10]]) == n
  }

  /** A sign-off packet of this name, its deletion, or a new connection. */
  ghost predicate Leaves(e: Event, n: Name)
    requires Understood(e)
  {
    match e
    case SignedOff(data) => Simplify(data[11..11 + data[10]]) == n
    case Deleted(sn) => Simplify(sn) == n
    case Reconnected => true
    case _ => false
  }

  /** A message from this name, without the empty TLV 4 of automatic ones. */
  ghost predicate Writes(e: Event, n: Name)
    requires Understood(e)
  {
    && e.Incoming? && Simplify(e.data[21..21 + e.data[20]]) == n
    && Tlv(0x0004, []) !in Parse(e.data[25 + e.data[20] as int..]).value
  }

  /** What a sign-on packet says about the buddy. */
  function Announced(e: Event): Info
    requires Understood(e) && e.SignedOn?
  {
    Status(Parse(e.data[15 + e.data[10]..]).value)
  }

  lemma AfterIs(e: Event, n: Name, before: Option<Info>)
    requires Understood(e)
    ensures Leaves(e, n) ==> After(e, n, before) == None
    ensures Arrives(e, n) ==> After(e, n, before) == Some(Announced(e))
    ensures !Leaves(e, n) && !Arrives(e, n) ==>
              After(e, n, before) ==
              if Writes(e, n) && before.Some? then Some(before.value.(idletime := 0)) else before
  {
    hide Simplify, Parse, Status, Readable, StatusReadable;
  }

  /** From the k-th event on, nothing signs the name on or takes it away. */
  ghost predicate Quiet(events: seq<Event>, n: Name, k: nat)
    requires forall e | e in events :: Understood(e)
  {
    forall i | k <= i < |events| :: !Arrives(events[i], n) && !Leaves(events[i], n)
  }

  /** What is known about a name stays but for its idle time, which ends when it writes. */
  lemma {:induction false} QuietKeeps(events: seq<Event>, n: Name, before: Option<Info>, k: nat)
    requires (forall e | e in events :: Understood(e)) && k <= |events| && Quiet(events, n, k)
    ensures var was := Replay(events[..k], n, before);
            Replay(events, n, before) ==
            if was.Some? && exists i | k <= i < |events| :: Writes(events[i], n)
            then Some(was.value.(idletime := 0)) else was
  {
    hide Understood, After, Arrives, Leaves, Writes;
    if k == |events| {
      assert events[..k] == events;
    } else {
      var front, last := events[..|events| - 1], events[|events| - 1];
      assert front[..k] == events[..k];
      assert !Arrives(events[|events| - 1], n) && !Leaves(events[|events| - 1], n);
      QuietKeeps(front, n, before, k);
      AfterIs(last, n, Replay(front, n, before));
      WroteSnoc(events, n, k);
    }
  }

  lemma WroteSnoc(events: seq<Event>, n: Name, k: nat)
    requires (forall e | e in events :: Understood(e)) && k < |events|
    ensures (exists i | k <= i < |events| :: Writes(events[i], n)) <==>
            (exists i | k <= i < |events| - 1 :: Writes(events[i], n)) || Writes(events[|events| - 1], n)
  {
    hide Understood, Writes;
  }

  lemma ArrivalCounts(events: seq<Event>, n: Name, before: Option<Info>, k: nat)
    requires (forall e | e in events :: Understood(e)) && k < |events| && Arrives(events[k], n)
    ensures Replay(events[..k + 1], n, before) == Some(Announced(events[k]))
  {
    AfterIs(events[k], n, Replay(events[..k], n, before));
    assert events[..k + 1][..k] == events[..k];
    hide Understood, After, Leaves, Writes, Status, Parse;
  }

  /** Behind its last arrival, with no departure since, a name has the status it announced, idle until it wrote. */
  lemma RecordIs(events: seq<Event>, n: Name, before: Option<Info>, k: nat)
    requires (forall e | e in events :: Understood(e)) && k < |events|
    requires Arrives(events[k], n) && Quiet(events, n, k + 1)
    ensures Replay(events, n, before) ==
            if exists i | k + 1 <= i < |events| :: Writes(events[i], n)
            then Some(Announced(events[k]).(idletime := 0)) else Some(Announced(events[k]))
  {
    hide Understood, Replay, Arrives, Leaves, Writes, Announced, Quiet;
    ArrivalCounts(events, n, before, k);
    QuietKeeps(events, n, before, k + 1);
  }

  /** From the k-th event on, nothing takes the name away. */
  ghost predicate Stays(events: seq<Event>, n: Name, k: nat)
    requires forall e | e in events :: Understood(e)
  {
    forall i | k <= i < |events| :: !Leaves(events[i], n)
  }

  /** The name has arrived, or was there, and nothing has taken it away since. */
  ghost predicate IsHere(events: seq<Event>, n: Name, was: bool)
    requires forall e | e in events :: Understood(e)
  {
    || (exists k | 0 <= k < |events| :: Arrives(events[k], n) && Stays(events, n, k + 1))
    || (was && Stays(events, n, 0))
  }

  /** A name is online exactly if the last event to sign it on or take it away has signed it on. */
  lemma {:induction false} OnlineIs(events: seq<Event>, n: Name, before: Option<Info>)
    requires forall e | e in events :: Understood(e)
    ensures Replay(events, n, before).Some? <==> IsHere(events, n, before.Some?)
  {
    if events != [] {
      var front, last := events[..|events| - 1], events[|events| - 1];
      OnlineIs(front, n, before);
      AfterIs(last, n, Replay(front, n, before));
      OneWay(last, n);
      hide Understood, After, Arrives, Leaves, Writes, Announced;
      forall k | 0 <= k <= |front| {
        StaysSnoc(events, n, k);
      }
      hide Stays;
      if Arrives(last, n) {
        assert Stays(events, n, |front| + 1);
      }
    }
  }

  lemma OneWay(e: Event, n: Name)
    requires Understood(e)
    ensures !(Arrives(e, n) && Leaves(e, n))
  {
  }

  lemma StaysSnoc(events: seq<Event>, n: Name, k: nat)
    requires (forall e | e in events :: Understood(e)) && k < |events|
    ensures var front, last := events[..|events| - 1], events[|events| - 1];
            (Stays(events, n, k) <==> Stays(front, n, k) && !Leaves(last, n)) && Stays(events, n, |events|)
  {
    hide Understood, Leaves;
  }

  /** Whatever happens on a connection, the two rosters agree, and say what the events said. */
  method Run(c: Connection, host: Host, events: seq<Event>)
    requires c.Valid() && c.Agree() && forall e | e in events :: Understood(e)
    modifies c, c.lib, c.lib.nodes, c.client, c.client.nodes
    ensures c.Valid() && c.Agree()
    ensures forall n :: c.Online(n) == Replay(events, n, old(c.Online(n)))
    ensures forall n :: c.Online(n).Some? <==> IsHere(events, n, old(c.Online(n)).Some?)
    ensures c.client.buddiesonline == |c.client.entries| == |c.lib.entries|
  {
    hide Connection.Online, Connection.Shown, Connection.Valid, Connection.Agree, Understood, After, IsHere;
    for k := 0 to |events|
      invariant c.Valid() && c.Agree()
      invariant (c.lib == old(c.lib) || fresh(c.lib)) && c.client == old(c.client)
      invariant forall i | 0 <= i < |c.lib.nodes| :: c.lib.nodes[i] in old(c.lib.nodes) || fresh(c.lib.nodes[i])
      invariant forall i | 0 <= i < |c.client.nodes| ::
                  c.client.nodes[i] in old(c.client.nodes) || fresh(c.client.nodes[i])
      invariant forall n :: c.Online(n) == Replay(events[..k], n, old(c.Online(n)))
    {
      assert events[..k + 1][..k] == events[..k];
      Handle(c, host, events[k]);
    }
    assert events[..|events|] == events;
    c.CountsAgree();
    forall n
      ensures c.Online(n).Some? <==> IsHere(events, n, old(c.Online(n)).Some?)
    {
      OnlineIs(events, n, old(c.Online(n)));
    }
  }
}
