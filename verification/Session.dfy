/**
 The two rosters of one connection, and the events that change them: the library keeps its own
 list and tells the client about changes through callbacks.
 */
module Session {
  import opened Names
  import opened Lists
  import opened Wrappers
  import opened Directory
  import L = LibraryRoster
  import C = ClientRoster

  ghost function LibraryRow(e: L.Entry): Row { Row(e.sn, Info(e.isaway, e.idletime)) }

  ghost function ClientRow(e: C.Entry): Row { Row(e.sn, Info(e.away, e.idletime)) }

  ghost function LibraryRows(es: seq<L.Entry>): (rows: seq<Row>)
    ensures |rows| == |es|
  {
    seq(|es|, i requires 0 <= i < |es| => LibraryRow(es[i]))
  }

  ghost function ClientRows(es: seq<C.Entry>): (rows: seq<Row>)
    ensures |rows| == |es|
  {
    seq(|es|, i requires 0 <= i < |es| => ClientRow(es[i]))
  }

  lemma LibraryUnique(es: seq<L.Entry>)
    requires L.Unique(es)
    ensures Unique(LibraryRows(es))
  {
  }

  lemma ClientUnique(es: seq<C.Entry>)
    requires C.StrictlyAscending(es)
    ensures Unique(ClientRows(es))
  {
    forall i, j | 0 <= i < j < |es|
      ensures es[i].sn != es[j].sn
    {
      LessTotal(es[i].sn, es[j].sn);
    }
  }

  lemma LibraryAt(es: seq<L.Entry>, sn: Name)
    ensures IsAt(LibraryRows(es), sn, L.Index(es, sn))
  {
    L.IndexFinds(es, sn);
  }

  lemma ClientAt(es: seq<C.Entry>, sn: Name)
    ensures IsAt(ClientRows(es), sn, C.Index(es, sn))
  {
    C.IndexFinds(es, sn);
  }

  /** The idle flag means ten minutes or more, except perhaps for one name. */
  ghost predicate Flagged(es: seq<C.Entry>, except: Option<Name>) {
    forall i | 0 <= i < |es| :: Some(es[i].sn) == except || (es[i].idle <==> es[i].idletime >= 10)
  }

  lemma FlaggedWithout(es: seq<C.Entry>, k: nat)
    requires k < |es| && Flagged(es, None)
    ensures Flagged(Without(es, k), None)
  {
  }

  lemma FlaggedUpdate(es: seq<C.Entry>, k: nat, idletime: int)
    requires k <= |es| && (forall i | 0 <= i < |es| && i != k :: es[i].idle <==> es[i].idletime >= 10)
    ensures Flagged(if k == |es| then es else es[k := es[k].(idle := idletime >= 10, idletime := idletime)], None)
  {
  }

  // How each roster operation changes what the roster records.

  lemma LibraryAppends(es: seq<L.Entry>, e: L.Entry, sn: Name)
    requires L.Unique(es) && L.Index(es, e.sn) == |es|
    ensures Find(LibraryRows(es + [e]), sn) ==
            if sn == e.sn then Some(LibraryRow(e).info) else Find(LibraryRows(es), sn)
  {
    var rows := LibraryRows(es);
    LibraryAt(es, e.sn);
    FindAt(rows, e.sn, |es|);
    FindWith(rows, |es|, LibraryRow(e), sn);
    assert LibraryRows(es + [e]) == With(rows, |es|, LibraryRow(e));
  }

  lemma LibraryUpdates(es: seq<L.Entry>, k: nat, e: L.Entry, sn: Name)
    requires L.Unique(es) && k < |es| && e.sn == es[k].sn
    ensures Find(LibraryRows(es[k := e]), sn) ==
            if sn == e.sn then Some(LibraryRow(e).info) else Find(LibraryRows(es), sn)
  {
    LibraryUnique(es);
    FindUpdate(LibraryRows(es), k, LibraryRow(e), sn);
    assert LibraryRows(es[k := e]) == LibraryRows(es)[k := LibraryRow(e)];
  }

  lemma LibraryRemoves(es: seq<L.Entry>, k: nat, sn: Name)
    requires L.Unique(es) && k < |es|
    ensures Find(LibraryRows(Without(es, k)), sn) == if sn == es[k].sn then None else Find(LibraryRows(es), sn)
  {
    LibraryUnique(es);
    FindWithout(LibraryRows(es), k, sn);
    assert LibraryRows(Without(es, k)) == Without(LibraryRows(es), k);
  }

  lemma ClientInserts(es: seq<C.Entry>, k: nat, e: C.Entry, sn: Name)
    requires k <= |es| && Find(ClientRows(es), e.sn) == None
    ensures Find(ClientRows(With(es, k, e)), sn) ==
            if sn == e.sn then Some(ClientRow(e).info) else Find(ClientRows(es), sn)
  {
    FindWith(ClientRows(es), k, ClientRow(e), sn);
    assert ClientRows(With(es, k, e)) == With(ClientRows(es), k, ClientRow(e));
  }

  lemma ClientUpdates(es: seq<C.Entry>, k: nat, e: C.Entry, sn: Name)
    requires C.StrictlyAscending(es) && k < |es| && e.sn == es[k].sn
    ensures Find(ClientRows(es[k := e]), sn) ==
            if sn == e.sn then Some(ClientRow(e).info) else Find(ClientRows(es), sn)
    ensures C.StrictlyAscending(es[k := e])
  {
    ClientUnique(es);
    FindUpdate(ClientRows(es), k, ClientRow(e), sn);
    assert ClientRows(es[k := e]) == ClientRows(es)[k := ClientRow(e)];
    var fs := es[k := e];
    assert forall i | 0 <= i < |es| :: fs[i].sn == es[i].sn;
  }

  lemma ClientRemoves(es: seq<C.Entry>, k: nat, sn: Name)
    requires C.StrictlyAscending(es) && k < |es|
    ensures Find(ClientRows(Without(es, k)), sn) == if sn == es[k].sn then None else Find(ClientRows(es), sn)
  {
    ClientUnique(es);
    FindWithout(ClientRows(es), k, sn);
    assert ClientRows(Without(es, k)) == Without(ClientRows(es), k);
  }

  // The same for the client's operations, by name.

  ghost function Dropped(es: seq<C.Entry>, name: Name): seq<C.Entry> {
    var k := C.Index(es, name);
    if k == |es| then es else Without(es, k)
  }

  lemma ClientDrops(es: seq<C.Entry>, name: Name)
    requires C.StrictlyAscending(es) && Flagged(es, None)
    ensures C.StrictlyAscending(Dropped(es, name)) && Flagged(Dropped(es, name), None)
    ensures forall sn ::
              Find(ClientRows(Dropped(es, name)), sn) == if sn == name then None else Find(ClientRows(es), sn)
  {
    hide Find, ClientRows, C.Index, Without, C.StrictlyAscending, Flagged, C.Ascending;
    var k := C.Index(es, name);
    ClientFinds(es, name);
    if k < |es| {
      C.StrictIsAscending(es);
      C.AscendingRemove(es, k);
      FlaggedWithout(es, k);
      forall sn {
        ClientRemoves(es, k, sn);
      }
    }
  }

  lemma ClientFinds(es: seq<C.Entry>, name: Name)
    ensures var k := C.Index(es, name);
            Find(ClientRows(es), name) == if k == |es| then None else Some(ClientRow(es[k]).info)
    ensures C.Index(es, name) < |es| ==> es[C.Index(es, name)].sn == name
  {
    hide Find;
    C.IndexFinds(es, name);
    ClientAt(es, name);
    FindAt(ClientRows(es), name, C.Index(es, name));
  }

  /** A new entry for a name that is on the list. */
  lemma ClientSets(es: seq<C.Entry>, name: Name, e: C.Entry)
    requires C.StrictlyAscending(es) && e.sn == name
    ensures var k := C.Index(es, name);
            var fs := if k == |es| then es else es[k := e];
            && C.StrictlyAscending(fs)
            && (k == |es| <==> Find(ClientRows(es), name) == None)
            && forall sn :: Find(ClientRows(fs), sn) ==
                            if k < |es| && sn == name then Some(ClientRow(e).info) else Find(ClientRows(es), sn)
  {
    hide *;
    var k := C.Index(es, name);
    ClientFinds(es, name);
    if k < |es| {
      ClientUpdates(es, k, e, name);
      forall sn {
        ClientUpdates(es, k, e, sn);
      }
    }
  }

  lemma ClientRowIs(e: C.Entry)
    ensures ClientRow(e).info == Info(e.away, e.idletime)
  {
  }

  lemma FlaggedIdles(es: seq<C.Entry>, name: Name, idletime: int)
    requires C.StrictlyAscending(es) && Flagged(es, Some(name))
    ensures var k := C.Index(es, name);
            Flagged(if k == |es| then es else es[k := es[k].(idle := idletime >= 10, idletime := idletime)], None)
  {
    var k := C.Index(es, name);
    C.IndexFinds(es, name);
    ClientUnique(es);
    forall i | 0 <= i < |es| && i != k
      ensures es[i].idle <==> es[i].idletime >= 10
    {
      assert k < |es| ==> ClientRows(es)[i].sn != ClientRows(es)[k].sn;
    }
    FlaggedUpdate(es, k, idletime);
  }

  lemma ClientIdles(es: seq<C.Entry>, name: Name, idletime: int)
    requires C.StrictlyAscending(es) && Flagged(es, Some(name))
    ensures var k := C.Index(es, name);
            var fs := if k == |es| then es else es[k := es[k].(idle := idletime >= 10, idletime := idletime)];
            && C.StrictlyAscending(fs) && Flagged(fs, None)
            && forall sn :: Find(ClientRows(fs), sn) ==
                            var was := Find(ClientRows(es), sn);
                            if sn == name && was.Some? then Some(was.value.(idletime := idletime)) else was
  {
    hide *;
    var k := C.Index(es, name);
    FlaggedIdles(es, name, idletime);
    ClientFinds(es, name);
    if k < |es| {
      ClientSets(es, name, es[k].(idle := idletime >= 10, idletime := idletime));
      ClientRowIs(es[k]);
      ClientRowIs(es[k].(idle := idletime >= 10, idletime := idletime));
    }
  }

  lemma ClientAways(es: seq<C.Entry>, name: Name, away: bool)
    requires C.StrictlyAscending(es) && Flagged(es, None)
    ensures var k := C.Index(es, name);
            var fs := if k == |es| then es else es[k := es[k].(away := away)];
            && C.StrictlyAscending(fs) && Flagged(fs, None)
            && forall sn :: Find(ClientRows(fs), sn) ==
                            var was := Find(ClientRows(es), sn);
                            if sn == name && was.Some? then Some(was.value.(away := away)) else was
  {
    hide ClientRows, Find, C.StrictlyAscending, C.Index, ClientRow;
    var k := C.Index(es, name);
    ClientFinds(es, name);
    if k < |es| {
      ClientSets(es, name, es[k].(away := away));
      ClientRowIs(es[k]);
      ClientRowIs(es[k].(away := away));
    }
  }

  class Connection {
    var lib: L.Library
    var client: C.Roster

    /** What the library's list says about a name. */
    ghost function Online(sn: Name): Option<Info>
      reads `lib, lib`entries
    {
      Find(LibraryRows(lib.entries), sn)
    }

    /** What the client's list says about a name. */
    ghost function Shown(sn: Name): Option<Info>
      reads `client, client`entries
    {
      Find(ClientRows(client.entries), sn)
    }

    ghost predicate Valid()
      reads this, lib, lib.nodes, client, client.nodes
    {
      lib.Valid() && client.Valid() && C.StrictlyAscending(client.entries)
    }

    /** The two rosters say the same, and the idle flag means ten minutes or more. */
    ghost predicate Agree()
      reads this, lib, client
    {
      (forall sn :: Online(sn) == Shown(sn)) && Flagged(client.entries, None)
    }

    constructor ()
      ensures Valid() && Agree() && fresh(lib) && fresh(client) && fresh(lib.nodes) && fresh(client.nodes)
      ensures forall sn :: Online(sn) == None
    {
      lib := new L.Library();
      client := new C.Roster();
    }

    /** The IMCOMM_IM_IDLEINFO callback: buddy_idle. */
    method BuddyIdle(who: Name, idletime: int)
      requires Valid() && Flagged(client.entries, Some(Simplify(who)))
      modifies client`entries, client.nodes`idle, client.nodes`idletime
      ensures Valid() && Flagged(client.entries, None)
      ensures forall sn :: Shown(sn) ==
                if sn == Simplify(who) && old(Shown(sn)).Some?
                then Some(old(Shown(sn)).value.(idletime := idletime)) else old(Shown(sn))
    {
      ClientIdles(client.entries, Simplify(who), idletime);
      hide L.Library.Valid, C.Roster.Valid, Simplify, Find, C.Index, ClientRows, Without, C.StrictlyAscending, Flagged;
      client.BuddyIdle(who, idletime);
    }

    /** The IMCOMM_IM_BUDDYAWAY and IMCOMM_IM_BUDDYUNAWAY callbacks. */
    method BuddyAway(who: Name, away: bool)
      requires Valid() && Flagged(client.entries, None)
      modifies client`entries, client.nodes`away
      ensures Valid() && Flagged(client.entries, None)
      ensures forall sn :: Shown(sn) ==
                if sn == Simplify(who) && old(Shown(sn)).Some?
                then Some(old(Shown(sn)).value.(away := away)) else old(Shown(sn))
    {
      ClientAways(client.entries, Simplify(who), away);
      hide L.Library.Valid, C.Roster.Valid, Simplify, Find, C.Index, ClientRows, Without, C.StrictlyAscending, Flagged;
      client.BuddyAway(who, away);
    }

    /** The IMCOMM_IM_SIGNON callback: buddy_online. */
    method BuddyOnline(who: Name) returns (ghost idletime: int)
      requires Valid() && Flagged(client.entries, None) && Shown(Simplify(who)) == None
      modifies client, client.nodes`next, client.nodes`prev
      ensures Valid() && Flagged(client.entries, Some(Simplify(who)))
      ensures forall i | 0 <= i < |client.nodes| :: client.nodes[i] in old(client.nodes) || fresh(client.nodes[i])
      ensures forall sn :: Shown(sn) ==
                if sn == Simplify(who) then Some(Info(false, idletime)) else old(Shown(sn))
    {
      hide L.Library.Valid, Simplify, Find;
      ghost var es, name := client.entries, Simplify(who);
      ghost var k := C.InsertionPoint(es, name);
      idletime := client.BuddyOnline(who);
      ghost var e := C.Entry(name, false, false, idletime);
      forall sn {
        ClientInserts(es, k, e, sn);
      }
      ClientAt(es, name);
      FindAt(ClientRows(es), name, C.Index(es, name));
      C.IndexFinds(es, name);
      C.StrictInsert(es, k, e);
    }

    /** The IMCOMM_IM_SIGNOFF callback, and remove_from_list. */
    method BuddyOffline(who: Name)
      requires Valid() && Flagged(client.entries, None)
      modifies client, client.nodes`next, client.nodes`prev
      ensures Valid() && Flagged(client.entries, None)
      ensures forall i | 0 <= i < |client.nodes| :: client.nodes[i] in old(client.nodes)
      ensures forall sn :: Shown(sn) == if sn == Simplify(who) then None else old(Shown(sn))
    {
      hide L.Library.Valid, C.Roster.Valid, Simplify, Find, C.Index, ClientRows, Without, C.StrictlyAscending, Flagged;
      client.BuddyOffline(who);
      assert client.entries == Dropped(old(client.entries), Simplify(who));
      hide Dropped;
      ClientDrops(old(client.entries), Simplify(who));
    }

    // The library's own steps. They leave the client's roster alone.

    method AddToLibrary(sn: Name, idletime: nat, onlinetime: nat, isaway: bool) returns (added: bool)
      requires Valid()
      modifies lib, lib.nodes`next
      ensures Valid() && (added <==> old(Online(Simplify(sn))) == None)
      ensures forall i | 0 <= i < |lib.nodes| :: lib.nodes[i] in old(lib.nodes) || fresh(lib.nodes[i])
      ensures forall n :: Online(n) ==
                if added && n == Simplify(sn) then Some(Info(isaway, idletime)) else old(Online(n))
    {
      hide C.Roster.Valid, Simplify, Find;
      ghost var es, name := lib.entries, Simplify(sn);
      LibraryAt(es, name);
      FindAt(LibraryRows(es), name, L.Index(es, name));
      added := lib.Add(sn, idletime, onlinetime, isaway);
      if added {
        forall n {
          LibraryAppends(es, L.Entry(name, idletime, onlinetime, isaway), n);
        }
      } else {
        assert es + [] == es;
      }
    }

    method UpdateLibraryIdle(sn: Name, value: nat) returns (found: bool)
      requires Valid()
      modifies lib`entries, lib.nodes`idletime
      ensures Valid() && (found <==> old(Online(Simplify(sn))).Some?)
      ensures forall n :: Online(n) ==
                if found && n == Simplify(sn) then Some(old(Online(n)).value.(idletime := value)) else old(Online(n))
    {
      hide C.Roster.Valid, Simplify, Find;
      ghost var es, name := lib.entries, Simplify(sn);
      ghost var k := L.Index(es, name);
      LibraryAt(es, name);
      FindAt(LibraryRows(es), name, k);
      found := lib.UpdateIdle(sn, value);
      if found {
        forall n {
          LibraryUpdates(es, k, lib.entries[k], n);
        }
      }
    }

    method UpdateLibraryAway(sn: Name, isaway: bool) returns (changed: bool)
      requires Valid()
      modifies lib`entries, lib.nodes`isaway
      ensures Valid()
      ensures changed <==> old(Online(Simplify(sn))).Some? && old(Online(Simplify(sn))).value.away != isaway
      ensures forall n :: Online(n) ==
                if changed && n == Simplify(sn) then Some(old(Online(n)).value.(away := isaway)) else old(Online(n))
    {
      hide C.Roster.Valid, Simplify, Find;
      ghost var es, name := lib.entries, Simplify(sn);
      ghost var k := L.Index(es, name);
      LibraryAt(es, name);
      FindAt(LibraryRows(es), name, k);
      changed := lib.UpdateAway(sn, isaway);
      if k < |es| {
        forall n {
          LibraryUpdates(es, k, lib.entries[k], n);
        }
      }
    }

    /** imcomm_update_buddy_times with type 2, which no callback reports. */
    method UpdateOnlineTime(sn: Name, value: nat)
      requires Valid()
      modifies lib`entries, lib.nodes`onlinetime
      ensures Valid() && forall n :: Online(n) == old(Online(n))
    {
      hide C.Roster.Valid, Simplify, Find;
      ghost var es, name := lib.entries, Simplify(sn);
      ghost var k := L.Index(es, name);
      LibraryAt(es, name);
      FindAt(LibraryRows(es), name, k);
      lib.UpdateOnline(sn, value);
      if k < |es| {
        forall n {
          LibraryUpdates(es, k, lib.entries[k], n);
        }
      }
    }

    method DeleteFromLibrary(sn: Name)
      requires Valid()
      modifies lib, lib.nodes`next
      ensures Valid() && forall i | 0 <= i < |lib.nodes| :: lib.nodes[i] in old(lib.nodes)
      ensures forall n :: Online(n) == if n == Simplify(sn) then None else old(Online(n))
    {
      hide C.Roster.Valid, Simplify, Find;
      ghost var es, name := lib.entries, Simplify(sn);
      ghost var k := L.Index(es, name);
      LibraryAt(es, name);
      FindAt(LibraryRows(es), name, k);
      lib.Delete(sn);
      if k < |es| {
        forall n {
          LibraryRemoves(es, k, n);
        }
      }
    }

    /** The idle half of a reported status, passed on to the client. */
    method RefreshIdle(sn: Name, value: nat)
      requires Valid() && Agree()
      modifies lib`entries, lib.nodes`idletime, client`entries, client.nodes`idle, client.nodes`idletime
      ensures Valid() && Agree()
      ensures forall n :: Online(n) ==
                if n == Simplify(sn) && old(Online(n)).Some? then Some(old(Online(n)).value.(idletime := value))
                else old(Online(n))
    {
      hide Simplify, Online, Shown, Valid;
      var found := UpdateLibraryIdle(sn, value);
      if found {
        BuddyIdle(sn, value);
      }
    }

    /** The away half of a reported status, passed on to the client. */
    method RefreshAway(sn: Name, isaway: bool)
      requires Valid() && Agree()
      modifies lib`entries, lib.nodes`isaway, client`entries, client.nodes`away
      ensures Valid() && Agree()
      ensures forall n :: Online(n) ==
                if n == Simplify(sn) && old(Online(n)).Some? then Some(old(Online(n)).value.(away := isaway))
                else old(Online(n))
    {
      hide Simplify, Online, Shown, Valid, Flagged;
      var changed := UpdateLibraryAway(sn, isaway);
      if changed {
        BuddyAway(sn, isaway);
      }
    }

    /** input_reconnect and handle_deleted: a new handle, and an empty list on the client's side. */
    method Reconnect()
      requires Valid()
      modifies this, client
      ensures Valid() && Agree() && client == old(client) && fresh(lib)
      ensures lib.nodes == [] && client.nodes == []
      ensures forall n :: Online(n) == None
    {
      lib := new L.Library();
      client.Clear();
    }

    /** The counter kept with the client's list counts the library's buddies. */
    lemma CountsAgree()
      requires Valid() && Agree()
      ensures client.buddiesonline == |client.entries| == |lib.entries|
    {
      LibraryUnique(lib.entries);
      ClientUnique(client.entries);
      forall sn
        ensures Find(LibraryRows(lib.entries), sn).Some? <==> Find(ClientRows(client.entries), sn).Some?
      {
        assert Online(sn) == Shown(sn);
      }
      SameLength(LibraryRows(lib.entries), ClientRows(client.entries));
    }
  }
}
