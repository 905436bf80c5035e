/** The client's buddy list of aim.c: doubly linked, and kept in order of simplified name. */
module ClientRoster {
  import opened Names
  import opened Lists

  /** What the list says about one buddy. */
  datatype Entry = Entry(sn: Name, idle: bool, away: bool, idletime: int)

  class Buddy {
    const sn: Name
    const formattedsn: Name
    var idle: bool
    var away: bool
    var idletime: int
    var next: Buddy?
    var prev: Buddy?

    /** malloc: the fields start out with whatever the memory held. */
    constructor (sn: Name, formattedsn: Name)
      ensures this.sn == sn
    {
      this.sn, this.formattedsn := sn, formattedsn;
      idle, away, idletime := *, *, *;
      next, prev := null, null;
    }

    ghost function Says(): Entry
      reads `idle, `away, `idletime
    {
      Entry(sn, idle, away, idletime)
    }
  }

  /** The entries are what the nodes say. */
  ghost predicate AllSay(nodes: seq<Buddy>, es: seq<Entry>)
    reads nodes`idle, nodes`away, nodes`idletime
  {
    && |es| == |nodes|
    && forall i {:trigger nodes[i].Says()} {:trigger es[i]} | 0 <= i < |nodes| :: nodes[i].Says() == es[i]
  }

  lemma AllSayInsert(nodes: seq<Buddy>, es: seq<Entry>, k: nat, b: Buddy)
    requires AllSay(nodes, es) && k <= |nodes|
    ensures AllSay(With(nodes, k, b), With(es, k, b.Says())) && |With(es, k, b.Says())| == |es| + 1
  {
    hide Buddy.Says;
  }

  lemma AllSayRemove(nodes: seq<Buddy>, es: seq<Entry>, k: nat)
    requires AllSay(nodes, es) && k < |nodes|
    ensures AllSay(Without(nodes, k), Without(es, k)) && |Without(es, k)| == |es| - 1
  {
    hide Buddy.Says;
  }

  ghost function At(nodes: seq<Buddy>, i: int): Buddy? {
    if 0 <= i < |nodes| then nodes[i] else null
  }

  ghost predicate Ascending(es: seq<Entry>) {
    forall i, j | 0 <= i < j < |es| :: !Less(es[j].sn, es[i].sn)
  }

  ghost predicate StrictlyAscending(es: seq<Entry>) {
    forall i, j | 0 <= i < j < |es| :: Less(es[i].sn, es[j].sn)
  }

  /** Where buddy_online inserts: before the first greater name. */
  function InsertionPoint(es: seq<Entry>, sn: Name): (k: nat)
    ensures k <= |es|
  {
    if es == [] || Less(sn, es[0].sn) then 0 else 1 + InsertionPoint(es[1..], sn)
  }

  /** The first entry of a name. */
  function Index(es: seq<Entry>, sn: Name): (k: nat)
    ensures k <= |es|
  {
    if es == [] || es[0].sn == sn then 0 else 1 + Index(es[1..], sn)
  }

  lemma {:induction false} IndexIs(es: seq<Entry>, sn: Name, k: nat)
    requires k <= |es| && (forall i | 0 <= i < k :: es[i].sn != sn)
    requires k < |es| ==> es[k].sn == sn
    ensures Index(es, sn) == k
  {
    if k > 0 {
      IndexIs(es[1..], sn, k - 1);
    }
  }

  lemma {:induction false} IndexFinds(es: seq<Entry>, sn: Name)
    ensures var k := Index(es, sn);
            && (forall i | 0 <= i < k :: es[i].sn != sn)
            && (k < |es| ==> es[k].sn == sn)
  {
    if es != [] && es[0].sn != sn {
      IndexFinds(es[1..], sn);
    }
  }

  lemma {:induction false} InsertionPointIs(es: seq<Entry>, sn: Name, k: nat)
    requires k <= |es| && (forall i | 0 <= i < k :: !Less(sn, es[i].sn))
    requires k < |es| ==> Less(sn, es[k].sn)
    ensures InsertionPoint(es, sn) == k
  {
    if k > 0 {
      InsertionPointIs(es[1..], sn, k - 1);
    }
  }

  /** The order depends on the names only. */
  lemma AscendingUpdate(es: seq<Entry>, k: nat, e: Entry)
    requires Ascending(es) && k < |es| && e.sn == es[k].sn
    ensures Ascending(es[k := e])
  {
    var fs := es[k := e];
    assert forall i | 0 <= i < |es| :: fs[i].sn == es[i].sn;
  }

  lemma AscendingRemove(es: seq<Entry>, k: nat)
    requires Ascending(es) && k < |es|
    ensures Ascending(Without(es, k))
    ensures StrictlyAscending(es) ==> StrictlyAscending(Without(es, k))
  {
    hide Less;
  }

  lemma {:induction false} InsertionPointSplits(es: seq<Entry>, sn: Name)
    requires Ascending(es)
    ensures var k := InsertionPoint(es, sn);
            && (forall i | 0 <= i < k :: !Less(sn, es[i].sn))
            && (forall i | k <= i < |es| :: Less(sn, es[i].sn))
  {
    hide Less;
    if es != [] {
      InsertionPointSplits(es[1..], sn);
      forall i | 0 < i < |es| && Less(sn, es[0].sn)
        ensures Less(sn, es[i].sn)
      {
        LessTransitive(sn, es[0].sn, es[i].sn);
      }
    }
  }

  /** Inserting at the insertion point keeps the order, strictly so exactly for a new name. */
  lemma AscendingInsert(es: seq<Entry>, k: nat, e: Entry)
    requires Ascending(es) && k == InsertionPoint(es, e.sn)
    ensures Ascending(With(es, k, e))
  {
    InsertionPointSplits(es, e.sn);
    hide Less, InsertionPoint, With;
    var fs := With(es, k, e);
    WithAt(es, k, e, 0);
    forall i, j | 0 <= i < j < |fs|
      ensures !Less(fs[j].sn, fs[i].sn)
    {
      WithAt(es, k, e, i);
      WithAt(es, k, e, j);
      if i == k {
        LessTotal(es[j - 1].sn, e.sn);
      }
    }
  }

  lemma StrictInsert(es: seq<Entry>, k: nat, e: Entry)
    requires StrictlyAscending(es) && k == InsertionPoint(es, e.sn)
    requires forall i | 0 <= i < |es| :: es[i].sn != e.sn
    ensures StrictlyAscending(With(es, k, e))
  {
    StrictIsAscending(es);
    InsertionPointSplits(es, e.sn);
    hide Less, InsertionPoint, Ascending, With;
    var fs := With(es, k, e);
    WithAt(es, k, e, 0);
    forall i, j | 0 <= i < j < |fs|
      ensures Less(fs[i].sn, fs[j].sn)
    {
      WithAt(es, k, e, i);
      WithAt(es, k, e, j);
      if j == k {
        LessTotal(es[i].sn, e.sn);
      }
    }
  }

  lemma StrictIsAscending(es: seq<Entry>)
    requires StrictlyAscending(es)
    ensures Ascending(es)
  {
    forall i, j | 0 <= i < j < |es|
      ensures !Less(es[j].sn, es[i].sn)
    {
      LessTotal(es[i].sn, es[j].sn);
    }
  }

  class Roster {
    var buddylist: Buddy?
    var buddiesonline: int
    ghost var nodes: seq<Buddy>
    ghost var entries: seq<Entry>

    /** The nodes form a doubly linked list: next and prev are each other's inverses. */
    ghost predicate Linked()
      reads `buddylist, `nodes, nodes`next, nodes`prev
    {
      && buddylist == At(nodes, 0)
      && (forall i, j | 0 <= i < j < |nodes| :: nodes[i] != nodes[j])
      && (forall i {:trigger nodes[i].next} | 0 <= i < |nodes| :: nodes[i].next == At(nodes, i + 1))
      && (forall i {:trigger nodes[i].prev} | 0 <= i < |nodes| :: nodes[i].prev == At(nodes, i - 1))
    }

    ghost predicate Valid()
      reads this, nodes
    {
      Linked() && AllSay(nodes, entries) && buddiesonline == |entries| && Ascending(entries)
    }

    constructor ()
      ensures Valid() && entries == []
    {
      buddylist, buddiesonline, nodes, entries := null, 0, [], [];
    }

    /** The search loops: the first buddy of a name. */
    method Find(sn: Name) returns (trav: Buddy?, ghost k: nat)
      requires Valid()
      ensures k == Index(entries, sn) <= |nodes| == |entries|
      ensures if k == |nodes| then trav == null else trav == nodes[k]
    {
      trav, k := buddylist, 0;
      while trav != null && trav.sn != sn
        invariant k <= |nodes| && trav == At(nodes, k)
        invariant forall i | 0 <= i < k :: entries[i].sn != sn
        decreases |nodes| - k
      {
        trav, k := trav.next, k + 1;
      }
      IndexIs(entries, sn, k);
    }

    lemma TakeOut(k: nat)
      requires Valid() && k < |nodes|
      ensures nodes[k] !in Without(nodes, k) && nodes[k].Says() == entries[k]
      ensures AllSay(Without(nodes, k), Without(entries, k))
    {
      AllSayRemove(nodes, entries, k);
    }

    lemma PutIn(k: nat)
      requires k < |nodes| == |entries| && AllSay(Without(nodes, k), Without(entries, k))
      requires Ascending(entries) && nodes[k].sn == entries[k].sn
      ensures AllSay(nodes, entries[k := nodes[k].Says()]) && Ascending(entries[k := nodes[k].Says()])
    {
      AllSayInsert(Without(nodes, k), Without(entries, k), k, nodes[k]);
      PutBack(nodes, k, nodes[k]);
      PutBack(entries, k, nodes[k].Says());
      AscendingUpdate(entries, k, nodes[k].Says());
      hide AllSay, Ascending, Buddy.Says;
      assert nodes[k := nodes[k]] == nodes;
    }

    /** buddy_idle. */
    method BuddyIdle(who: Name, idletime: int)
      requires Valid()
      modifies nodes`idle, nodes`idletime, `entries
      ensures Valid()
      ensures var k := Index(old(entries), Simplify(who));
              entries == if k == |old(entries)| then old(entries)
                         else old(entries)[k := old(entries)[k].(idle := idletime >= 10, idletime := idletime)]
    {
      hide Ascending, Less, Index, Simplify, Linked, AllSay, Without, At;
      var sn := SimplifySn(who);
      var trav, k := Find(sn);
      if trav != null {
        TakeOut(k);
        trav.idletime := idletime;
        trav.idle := idletime >= 10;
        PutIn(k);
        entries := entries[k := trav.Says()];
      }
    }

    /** buddy_away and buddy_unaway. */
    method BuddyAway(who: Name, away: bool)
      requires Valid()
      modifies nodes`away, `entries
      ensures Valid()
      ensures var k := Index(old(entries), Simplify(who));
              entries == if k == |old(entries)| then old(entries)
                         else old(entries)[k := old(entries)[k].(away := away)]
    {
      hide Ascending, Less, Index, Simplify, Linked, AllSay, Without, At;
      var sn := SimplifySn(who);
      var trav, k := Find(sn);
      if trav != null {
        TakeOut(k);
        trav.away := away;
        PutIn(k);
        entries := entries[k := trav.Says()];
      }
    }

    /** The first loop of buddy_online. */
    method FindGreater(sn: Name) returns (trav: Buddy?, ghost k: nat)
      requires Valid()
      ensures k == InsertionPoint(entries, sn) <= |nodes| == |entries|
      ensures if k == |nodes| then trav == null else trav == nodes[k]
    {
      hide Less;
      trav, k := buddylist, 0;
      while trav != null && !Less(sn, trav.sn)
        invariant k <= |nodes| && trav == At(nodes, k)
        invariant forall i | 0 <= i < k :: !Less(sn, entries[i].sn)
        decreases |nodes| - k
      {
        trav, k := trav.next, k + 1;
      }
      InsertionPointIs(entries, sn, k);
    }

    /** The second loop of buddy_online: the last buddy. */
    method FindLast() returns (trav: Buddy)
      requires Linked() && nodes != []
      ensures trav == nodes[|nodes| - 1]
    {
      trav := buddylist;
      ghost var k := 0;
      while trav.next != null
        invariant k < |nodes| && trav == nodes[k]
        decreases |nodes| - k
      {
        trav, k := trav.next, k + 1;
      }
    }

    /** The links buddy_online sets for a buddy that goes last. */
    method LinkLast(newbuddy: Buddy)
      requires Linked() && newbuddy !in nodes
      modifies `buddylist, `nodes, nodes`next, newbuddy`next, newbuddy`prev
      ensures Linked() && nodes == old(nodes) + [newbuddy]
    {
      if buddylist == null {
        buddylist := newbuddy;
        newbuddy.prev := null;
        newbuddy.next := null;
      } else {
        var last := FindLast();
        last.next := newbuddy;
        newbuddy.prev := last;
        newbuddy.next := null;
      }
      nodes := nodes + [newbuddy];
    }

    /** The links buddy_online sets for a buddy that goes first. */
    method LinkFirst(newbuddy: Buddy)
      requires Linked() && newbuddy !in nodes && nodes != []
      modifies `buddylist, `nodes, nodes`prev, newbuddy`next, newbuddy`prev
      ensures Linked() && nodes == [newbuddy] + old(nodes)
    {
      buddylist.prev := newbuddy;
      newbuddy.prev := null;
      newbuddy.next := buddylist;
      buddylist := newbuddy;
      nodes := [newbuddy] + nodes;
    }

    /** The links buddy_online sets for a buddy that goes before trav, and after another. */
    method LinkBefore(newbuddy: Buddy, trav: Buddy, ghost k: nat)
      requires Linked() && newbuddy !in nodes && 0 < k < |nodes| && trav == nodes[k]
      modifies `nodes, nodes`next, nodes`prev, newbuddy`next, newbuddy`prev
      ensures Linked() && nodes == With(old(nodes), k, newbuddy)
    {
      ghost var was := nodes;
      trav.prev.next := newbuddy;
      newbuddy.prev := trav.prev;
      newbuddy.next := trav;
      trav.prev := newbuddy;
      nodes := nodes[..k] + [newbuddy] + nodes[k..];
      WithAt(was, k, newbuddy, 0);
      forall i {:trigger nodes[i].next} {:trigger nodes[i].prev} | 0 <= i < |nodes|
        ensures nodes[i].next == At(nodes, i + 1) && nodes[i].prev == At(nodes, i - 1)
      {
        WithAt(was, k, newbuddy, i);
        if i > 0 {
          WithAt(was, k, newbuddy, i - 1);
        }
        if i + 1 < |nodes| {
          WithAt(was, k, newbuddy, i + 1);
        }
      }
      forall i, j | 0 <= i < j < |nodes|
        ensures nodes[i] != nodes[j]
      {
        WithAt(was, k, newbuddy, i);
        WithAt(was, k, newbuddy, j);
      }
    }

    method Link(newbuddy: Buddy, trav: Buddy?, ghost k: nat)
      requires Linked() && newbuddy !in nodes && k <= |nodes|
      requires if k == |nodes| then trav == null else trav == nodes[k]
      modifies `buddylist, `nodes, nodes`next, nodes`prev, newbuddy`next, newbuddy`prev
      ensures Linked() && nodes == With(old(nodes), k, newbuddy)
    {
      HeadOrLater(k);
      hide Linked;
      if trav == null {
        LinkLast(newbuddy);
        assert nodes == With(old(nodes), k, newbuddy);
      } else if trav == buddylist {
        LinkFirst(newbuddy);
        assert nodes == With(old(nodes), k, newbuddy);
      } else {
        LinkBefore(newbuddy, trav, k);
      }
    }

    lemma HeadOrLater(k: nat)
      requires Linked() && k <= |nodes|
      ensures nodes != [] && k < |nodes| ==> (nodes[k] == buddylist <==> k == 0)
    {
    }

    /** What buddy_online sets in a new buddy; idletime keeps what the memory held. */
    method Reset(newbuddy: Buddy)
      modifies newbuddy`idle, newbuddy`away
      ensures newbuddy.Says() == Entry(newbuddy.sn, false, false, newbuddy.idletime)
    {
      newbuddy.away := false;
      newbuddy.idle := false;
    }

    /** buddy_online, without looking whether the name is there already. */
    method BuddyOnline(who: Name) returns (ghost idletime: int)
      requires Valid()
      modifies this, nodes`next, nodes`prev
      ensures Valid() && forall n | n in nodes :: n in old(nodes) || fresh(n)
      ensures var k := InsertionPoint(old(entries), Simplify(who));
              entries == With(old(entries), k, Entry(Simplify(who), false, false, idletime))
    {
      hide Ascending, Less, InsertionPoint, Simplify, Linked, At, Buddy.Says, AllSay, With;
      var sname := SimplifySn(who);
      var trav, k := FindGreater(sname);
      var newbuddy := new Buddy(sname, who);
      Link(newbuddy, trav, k);
      Reset(newbuddy);
      buddiesonline := buddiesonline + 1;
      idletime := newbuddy.idletime;
      AllSayInsert(old(nodes), entries, k, newbuddy);
      AscendingInsert(entries, k, newbuddy.Says());
      entries := With(entries, k, newbuddy.Says());
      Members(old(nodes), k, newbuddy);
    }

    /** The links remove_from_list and buddy_offline set for the first buddy. */
    method UnlinkFirst()
      requires Linked() && nodes != []
      modifies `buddylist, `nodes, nodes`prev
      ensures Linked() && nodes == old(nodes)[1..]
    {
      ghost var was := nodes;
      buddylist := buddylist.next;
      if buddylist != null {
        buddylist.prev := null;
      }
      nodes := nodes[1..];
      assert forall i | 0 <= i < |nodes| :: nodes[i] == was[i + 1];
    }

    /** The links they set for a buddy behind another one. */
    method UnlinkLater(trav: Buddy, ghost k: nat)
      requires Linked() && 0 < k < |nodes| && trav == nodes[k]
      modifies `nodes, nodes`next, nodes`prev
      ensures Linked() && nodes == Without(old(nodes), k)
    {
      ghost var was := nodes;
      trav.prev.next := trav.next;
      if trav.next != null {
        trav.next.prev := trav.prev;
      }
      nodes := nodes[..k] + nodes[k + 1..];
      forall i {:trigger nodes[i].next} {:trigger nodes[i].prev} | 0 <= i < |nodes|
        ensures nodes[i].next == At(nodes, i + 1) && nodes[i].prev == At(nodes, i - 1)
      {
        WithoutAt(was, k, i);
        if i > 0 {
          WithoutAt(was, k, i - 1);
        }
        if i + 1 < |nodes| {
          WithoutAt(was, k, i + 1);
        }
      }
      forall i, j | 0 <= i < j < |nodes|
        ensures nodes[i] != nodes[j]
      {
        WithoutAt(was, k, i);
        WithoutAt(was, k, j);
      }
    }

    method Unlink(trav: Buddy, ghost k: nat)
      requires Linked() && k < |nodes| && trav == nodes[k]
      modifies `buddylist, `nodes, nodes`next, nodes`prev
      ensures Linked() && nodes == Without(old(nodes), k)
    {
      ghost var was := nodes;
      assert trav.prev == null <==> k == 0;
      hide Linked;
      if trav.prev == null {
        UnlinkFirst();
        assert was[1..] == Without(was, 0);
      } else {
        UnlinkLater(trav, k);
      }
    }

    /** remove_from_list and buddy_offline: the first buddy of the name leaves the list. */
    method BuddyOffline(who: Name)
      requires Valid()
      modifies this, nodes`next, nodes`prev
      ensures Valid() && forall i | 0 <= i < |nodes| :: nodes[i] in old(nodes)
      ensures var k := Index(old(entries), Simplify(who));
              entries == if k == |old(entries)| then old(entries) else Without(old(entries), k)
    {
      hide Ascending, Less, Index, Simplify, Linked, At, Buddy.Says, AllSay;
      var sname := SimplifySn(who);
      var trav, k := Find(sname);
      if trav != null {
        buddiesonline := buddiesonline - 1;
        Unlink(trav, k);
        AllSayRemove(old(nodes), entries, k);
        AscendingRemove(entries, k);
        Members(old(nodes), k, trav);
        entries := Without(entries, k);
      }
    }

    /** input_reconnect and handle_deleted: the list is dropped as a whole. */
    method Clear()
      requires Valid()
      modifies this
      ensures Valid() && entries == [] && nodes == []
    {
      buddylist, buddiesonline, nodes, entries := null, 0, [], [];
    }
  }
}
