/** The library's list of buddies online of imcomm/imcomm.c: singly linked, in order of arrival. */
module LibraryRoster {
  import opened Names
  import opened Lists

  datatype Entry = Entry(sn: Name, idletime: nat, onlinetime: nat, isaway: bool)

  class Buddy {
    const sn: Name
    var idletime: nat
    var onlinetime: nat
    var isaway: bool
    var next: Buddy?

    constructor (sn: Name, idletime: nat, onlinetime: nat, isaway: bool)
      ensures Says() == Entry(sn, idletime, onlinetime, isaway) && this.sn == sn && next == null
    {
      this.sn, this.idletime, this.onlinetime, this.isaway := sn, idletime, onlinetime, isaway;
      next := null;
    }

    ghost function Says(): Entry
      reads `idletime, `onlinetime, `isaway
    {
      Entry(sn, idletime, onlinetime, isaway)
    }
  }

  /** Every name at most once. */
  ghost predicate Unique(es: seq<Entry>) {
    forall i, j | 0 <= i < j < |es| :: es[i].sn != es[j].sn
  }

  /** The entry of a name, or the length of the list. */
  function Index(es: seq<Entry>, sn: Name): (k: nat)
    ensures k <= |es|
  {
    if es == [] || es[0].sn == sn then 0 else 1 + Index(es[1..], sn)
  }

  lemma {:induction false} IndexIs(es: seq<Entry>, sn: Name, k: nat)
    requires k <= |es| && (forall i | 0 <= i < k :: es[i].sn != sn)
    requires k < |es| ==> es[k].sn == sn
    ensures Index(es, sn) == k
  {
    if k > 0 {
      IndexIs(es[1..], sn, k - 1);
    }
  }

  lemma {:induction false} IndexFinds(es: seq<Entry>, sn: Name)
    ensures var k := Index(es, sn);
            && (forall i | 0 <= i < k :: es[i].sn != sn)
            && (k < |es| ==> es[k].sn == sn)
  {
    if es != [] && es[0].sn != sn {
      IndexFinds(es[1..], sn);
    }
  }

  lemma UniqueRemove(es: seq<Entry>, k: nat)
    requires Unique(es) && k < |es|
    ensures Unique(Without(es, k))
  {
  }

  lemma UniqueAppend(es: seq<Entry>, e: Entry)
    requires Unique(es) && Index(es, e.sn) == |es|
    ensures Unique(es + [e])
  {
    IndexFinds(es, e.sn);
  }

  ghost predicate AllSay(nodes: seq<Buddy>, es: seq<Entry>)
    reads nodes`idletime, nodes`onlinetime, nodes`isaway
  {
    && |es| == |nodes|
    && forall i {:trigger nodes[i].Says()} {:trigger es[i]} | 0 <= i < |nodes| :: nodes[i].Says() == es[i]
  }

  lemma AllSayRemove(nodes: seq<Buddy>, es: seq<Entry>, k: nat)
    requires AllSay(nodes, es) && k < |nodes|
    ensures AllSay(Without(nodes, k), Without(es, k))
  {
    hide Buddy.Says;
  }

  lemma AllSayInsert(nodes: seq<Buddy>, es: seq<Entry>, k: nat, b: Buddy)
    requires AllSay(nodes, es) && k <= |nodes|
    ensures AllSay(With(nodes, k, b), With(es, k, b.Says()))
  {
    hide Buddy.Says;
  }

  class Library {
    var buddies_online: Buddy?
    ghost var nodes: seq<Buddy>
    ghost var entries: seq<Entry>

    ghost predicate Linked()
      reads `buddies_online, `nodes, nodes`next
    {
      && (if nodes == [] then buddies_online == null else buddies_online == nodes[0])
      && (forall i, j | 0 <= i < j < |nodes| :: nodes[i] != nodes[j])
      && (forall i {:trigger nodes[i].next} | 0 <= i < |nodes| ::
            nodes[i].next == if i + 1 < |nodes| then nodes[i + 1] else null)
    }

    ghost predicate Valid()
      reads this, nodes
    {
      Linked() && AllSay(nodes, entries) && Unique(entries)
    }

    constructor ()
      ensures Valid() && entries == [] && nodes == []
    {
      buddies_online, nodes, entries := null, [], [];
    }

    /** The search loops over the list. */
    method Find(sname: Name) returns (trav: Buddy?, ghost k: nat)
      requires Valid()
      ensures k == Index(entries, sname) <= |nodes| == |entries|
      ensures if k == |nodes| then trav == null else trav == nodes[k]
    {
      trav, k := buddies_online, 0;
      while trav != null && trav.sn != sname
        invariant k <= |nodes| && trav == if k < |nodes| then nodes[k] else null
        invariant forall i | 0 <= i < k :: entries[i].sn != sname
        decreases |nodes| - k
      {
        trav, k := trav.next, k + 1;
      }
      IndexIs(entries, sname, k);
    }

    /** The append at the end of imcomm_internal_add_buddy. */
    method Append(temp: Buddy)
      requires Linked() && temp !in nodes && temp.next == null
      modifies `buddies_online, `nodes, nodes`next
      ensures Linked() && nodes == old(nodes) + [temp]
    {
      if buddies_online == null {
        buddies_online := temp;
      } else {
        var trav := buddies_online;
        ghost var k := 0;
        while trav.next != null
          invariant k < |nodes| && trav == nodes[k]
          decreases |nodes| - k
        {
          trav, k := trav.next, k + 1;
        }
        trav.next := temp;
      }
      nodes := nodes + [temp];
    }

    /** imcomm_internal_add_buddy: false when the buddy is there already. */
    method Add(sn: Name, idletime: nat, onlinetime: nat, isaway: bool) returns (added: bool)
      requires Valid()
      modifies this, nodes`next
      ensures Valid() && forall n | n in nodes :: n in old(nodes) || fresh(n)
      ensures added <==> Index(old(entries), Simplify(sn)) == |old(entries)|
      ensures entries == old(entries)
                       + (if added then [Entry(Simplify(sn), idletime, onlinetime, isaway)] else [])
      ensures nodes == old(nodes) || added
    {
      hide Linked, Index, Simplify, AllSay, Unique, With;
      var sname := SimplifySn(sn);
      var trav, k := Find(sname);
      if trav != null {
        return false;
      }
      var temp := new Buddy(sname, idletime, onlinetime, isaway);
      UniqueAppend(entries, temp.Says());
      AllSayInsert(nodes, entries, k, temp);
      WithLast(nodes, temp);
      WithLast(entries, temp.Says());
      Append(temp);
      entries := entries + [temp.Says()];
      return true;
    }

    lemma TakeOut(k: nat)
      requires Valid() && k < |nodes|
      ensures nodes[k] !in Without(nodes, k) && nodes[k].Says() == entries[k]
      ensures AllSay(Without(nodes, k), Without(entries, k))
    {
      AllSayRemove(nodes, entries, k);
    }

    lemma PutIn(k: nat)
      requires k < |nodes| == |entries| && AllSay(Without(nodes, k), Without(entries, k))
      requires Unique(entries) && nodes[k].sn == entries[k].sn
      ensures AllSay(nodes, entries[k := nodes[k].Says()]) && Unique(entries[k := nodes[k].Says()])
    {
      AllSayInsert(Without(nodes, k), Without(entries, k), k, nodes[k]);
      PutBack(nodes, k, nodes[k]);
      PutBack(entries, k, nodes[k].Says());
      assert nodes[k := nodes[k]] == nodes;
      hide AllSay, With, Without;
      var fs := entries[k := nodes[k].Says()];
      assert forall i | 0 <= i < |entries| :: fs[i].sn == entries[i].sn;
    }

    /** imcomm_update_buddy_times with type 1; found says whether a callback is due. */
    method UpdateIdle(sn: Name, value: nat) returns (found: bool)
      requires Valid()
      modifies nodes`idletime, `entries
      ensures Valid()
      ensures var k := Index(old(entries), Simplify(sn));
              && (found <==> k < |old(entries)|)
              && entries == if found then old(entries)[k := old(entries)[k].(idletime := value)] else old(entries)
    {
      hide AllSay, Unique, Linked, Index, Simplify, Without;
      var sname := SimplifySn(sn);
      var trav, k := Find(sname);
      found := trav != null;
      if trav != null {
        TakeOut(k);
        trav.idletime := value;
        PutIn(k);
        entries := entries[k := trav.Says()];
      }
    }

    /** imcomm_update_buddy_times with type 2. */
    method UpdateOnline(sn: Name, value: nat)
      requires Valid()
      modifies nodes`onlinetime, `entries
      ensures Valid()
      ensures var k := Index(old(entries), Simplify(sn));
              entries == if k < |old(entries)| then old(entries)[k := old(entries)[k].(onlinetime := value)]
                         else old(entries)
    {
      hide AllSay, Unique, Linked, Index, Simplify, Without;
      var sname := SimplifySn(sn);
      var trav, k := Find(sname);
      if trav != null {
        TakeOut(k);
        trav.onlinetime := value;
        PutIn(k);
        entries := entries[k := trav.Says()];
      }
    }

    /** imcomm_update_buddy_away; changed says whether a callback is due. */
    method UpdateAway(sn: Name, isaway: bool) returns (changed: bool)
      requires Valid()
      modifies nodes`isaway, `entries
      ensures Valid()
      ensures var k := Index(old(entries), Simplify(sn));
              && (changed <==> k < |old(entries)| && old(entries)[k].isaway != isaway)
              && entries == if k < |old(entries)| then old(entries)[k := old(entries)[k].(isaway := isaway)]
                            else old(entries)
    {
      hide AllSay, Unique, Linked, Index, Simplify, Without;
      var sname := SimplifySn(sn);
      var trav, k := Find(sname);
      changed := false;
      if trav != null {
        TakeOut(k);
        assert entries[k := entries[k]] == entries;
        if trav.isaway != isaway {
          trav.isaway := isaway;
          changed := true;
          PutIn(k);
          entries := entries[k := trav.Says()];
        }
      }
    }

    /** The unlinking in imcomm_internal_delete_buddy. */
    method Unlink(prev: Buddy?, ghost k: nat)
      requires Linked() && k < |nodes| && (if k == 0 then prev == null else prev == nodes[k - 1])
      modifies `buddies_online, `nodes, nodes`next
      ensures Linked() && nodes == Without(old(nodes), k)
    {
      if prev == null {
        buddies_online := buddies_online.next;
      } else {
        prev.next := prev.next.next;
      }
      nodes := nodes[..k] + nodes[k + 1..];
    }

    /** The search in imcomm_internal_delete_buddy: the buddy before the one to delete. */
    method FindBefore(sname: Name) returns (prev: Buddy?, found: bool, ghost k: nat)
      requires Valid()
      ensures k == Index(entries, sname) <= |nodes| == |entries|
      ensures found <==> k < |nodes|
      ensures found ==> if k == 0 then prev == null else prev == nodes[k - 1]
    {
      prev, found, k := null, false, 0;
      var trav := buddies_online;
      while trav != null && trav.sn != sname
        invariant k <= |nodes| && trav == if k < |nodes| then nodes[k] else null
        invariant if k == 0 then prev == null else prev == nodes[k - 1]
        invariant forall i | 0 <= i < k :: entries[i].sn != sname
        decreases |nodes| - k
      {
        prev, trav, k := trav, trav.next, k + 1;
      }
      found := trav != null;
      IndexIs(entries, sname, k);
    }

    /** imcomm_internal_delete_buddy. */
    method Delete(sn: Name)
      requires Valid()
      modifies this, nodes`next
      ensures Valid() && forall n | n in nodes :: n in old(nodes)
      ensures var k := Index(old(entries), Simplify(sn));
              entries == if k < |old(entries)| then Without(old(entries), k) else old(entries)
    {
      hide AllSay, Linked, Index, Simplify, Unique, Without, Buddy.Says;
      var sname := SimplifySn(sn);
      var prev, found, k := FindBefore(sname);
      if found {
        UniqueRemove(entries, k);
        Unlink(prev, k);
        AllSayRemove(old(nodes), entries, k);
        Members(old(nodes), k, old(nodes)[k]);
        entries := Without(entries, k);
      }
    }
  }
}
