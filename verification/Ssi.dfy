/**
 The buddy list kept on the server (imcomm/snac.c): reading the server's copy, giving new buddies
 an id, and the items that tell the server about changes.
 */
module Ssi {
  import opened Bytes
  import opened Names
  import opened Lists
  import opened Packets
  import Senders

  /** An item as the server sends and receives it; kind 0 is a buddy. */
  datatype Item = Item(name: seq<byte>, group: uint16, id: uint16, kind: uint16, extra: seq<byte>)

  predicate Sendable(item: Item) { |item.name| < 0x1_0000 && |item.extra| < 0x1_0000 }

  function PrintItem(item: Item): (s: seq<byte>)
    requires Sendable(item)
    ensures |s| == 10 + |item.name| + |item.extra|
  {
    Be16(|item.name|) + item.name + Be16(item.group) + Be16(item.id) + Be16(item.kind) + Be16(|item.extra|) + item.extra
  }

  function PrintItems(items: seq<Item>): seq<byte>
    requires forall item | item in items :: Sendable(item)
  {
    if items == [] then [] else PrintItem(items[0]) + PrintItems(items[1..])
  }

  /** A buddy, as the reader takes it: other kinds, and items without a name, are skipped. */
  predicate IsBuddy(item: Item) { item.kind == 0 && item.name != [] }

  /** An entry of the handle's copy of the list: the simplified name, the name as it was given, id and group. */
  datatype Member = Member(sn: Name, formatted: Name, id: uint16, group: uint16)

  /** The entry for a buddy item. */
  function Entry(item: Item): Member { Member(Simplify(item.name), item.name, item.id, item.group) }

  predicate HasName(ms: seq<Member>, sn: Name) { exists k | 0 <= k < |ms| :: ms[k].sn == sn }

  predicate HasId(ms: seq<Member>, id: int) { exists k | 0 <= k < |ms| :: ms[k].id == id }

  ghost predicate DistinctNames(ms: seq<Member>) { forall i, j | 0 <= i < j < |ms| :: ms[i].sn != ms[j].sn }

  ghost predicate DistinctIds(ms: seq<Member>) { forall i, j | 0 <= i < j < |ms| :: ms[i].id != ms[j].id }

  /** The list with a buddy added, unless the name is there already. */
  function AddMember(ms: seq<Member>, m: Member): seq<Member> {
    if HasName(ms, m.sn) then ms else ms + [m]
  }

  /** The list with the buddies among the items added. */
  function Merge(ms: seq<Member>, items: seq<Item>): seq<Member> {
    if items == [] then ms
    else
      var front, item := Merge(ms, items[..|items| - 1]), items[|items| - 1];
      if IsBuddy(item) then AddMember(front, Entry(item)) else front
  }

  /** The buddies among the items have ids of their own; what other items have for an id does not matter. */
  ghost predicate OwnIds(ms: seq<Member>, items: seq<Item>) {
    && (forall i, j | 0 <= i < j < |items| && IsBuddy(items[i]) && IsBuddy(items[j]) :: items[i].id != items[j].id)
    && (forall i | 0 <= i < |items| && IsBuddy(items[i]) :: !HasId(ms, items[i].id))
  }

  /** Every entry of the merged list was there before, or is that of a buddy item. */
  lemma {:induction false} MergeOrigin(ms: seq<Member>, items: seq<Item>, m: Member)
    requires m in Merge(ms, items)
    ensures m in ms || exists i | 0 <= i < |items| :: IsBuddy(items[i]) && m == Entry(items[i])
  {
    if items != [] {
      var front, last := items[..|items| - 1], items[|items| - 1];
      if m in Merge(ms, front) {
        MergeOrigin(ms, front, m);
        if m !in ms {
          var i :| 0 <= i < |front| && IsBuddy(front[i]) && m == Entry(front[i]);
          assert items[i] == front[i];
        }
      } else {
        assert m == Entry(last) && IsBuddy(last);
      }
    }
  }

  /** Reading keeps names distinct, and ids if the buddies among the items have ids of their own. */
  lemma {:induction false} MergeDistinct(ms: seq<Member>, items: seq<Item>)
    requires DistinctNames(ms) && DistinctIds(ms)
    ensures DistinctNames(Merge(ms, items))
    ensures OwnIds(ms, items) ==> DistinctIds(Merge(ms, items))
  {
    if items != [] {
      var front, last := items[..|items| - 1], items[|items| - 1];
      MergeDistinct(ms, front);
      var before := Merge(ms, front);
      if OwnIds(ms, items) && IsBuddy(last) {
        forall k | 0 <= k < |before|
          ensures before[k].id != last.id
        {
          MergeOrigin(ms, front, before[k]);
        }
      }
    }
  }

  /** The item that removes an entry on the server, and the one that added it there. */
  function RemovalItem(m: Member): Item { Item(m.formatted, m.group, m.id, 0x0000, []) }

  function AddedItem(m: Member): Item { Item(m.sn, 0x0001, m.id, 0x0000, []) }

  /** An entry that was read is removed by the name, group and id the server has for it. */
  lemma RemovalNamesItem(items: seq<Item>, m: Member)
    requires m in Merge([], items)
    ensures exists i | 0 <= i < |items| :: IsBuddy(items[i]) && RemovalItem(m) == items[i].(extra := [])
  {
    MergeOrigin([], items, m);
  }

  lemma GroupAt(item: Item)
    requires Sendable(item)
    ensures var n := 2 + |item.name|;
            PrintItem(item)[n..n + 2] == Be16(item.group)
  {
    hide Be16;
  }

  /** One that was added is removed by the octets that added it exactly if the group happens to be 1. */
  lemma RemovalNamesAdded(m: Member)
    requires m.formatted == m.sn && Sendable(AddedItem(m))
    ensures PrintItem(RemovalItem(m)) == PrintItem(AddedItem(m)) <==> m.group == 0x0001
  {
    GroupAt(RemovalItem(m));
    GroupAt(AddedItem(m));
    Value16(m.group);
    Value16(0x0001);
    hide PrintItem, Be16, Of16;
  }

  /** The items that imcomm_im_add_buddy sends for the members of a list. */
  function ItemsOf(ms: seq<Member>): (items: seq<Item>)
    ensures |items| == |ms|
  {
    seq(|ms|, k requires 0 <= k < |ms| => AddedItem(ms[k]))
  }

  /** What is read back: the members that have a name at all. A screen name of spaces simplifies to nothing. */
  function Named(ms: seq<Member>): seq<Member> {
    if ms == [] then []
    else
      var front, m := Named(ms[..|ms| - 1]), ms[|ms| - 1];
      if m.sn == [] then front else front + [Member(m.sn, m.sn, m.id, 0x0001)]
  }

  lemma {:induction false} NamedAreMembers(ms: seq<Member>, k: nat)
    requires k < |Named(ms)|
    ensures exists i | 0 <= i < |ms| :: ms[i].sn == Named(ms)[k].sn
  {
    var front := ms[..|ms| - 1];
    if k < |Named(front)| {
      NamedAreMembers(front, k);
      var i :| 0 <= i < |front| && front[i].sn == Named(front)[k].sn;
      assert ms[i] == front[i];
    }
  }

  /** The items sent for a list are read back as that list, in group 1, but for members without a name. */
  lemma {:induction false} ListReadBack(ms: seq<Member>)
    requires DistinctNames(ms) && forall m | m in ms :: Simplify(m.sn) == m.sn
    ensures Merge([], ItemsOf(ms)) == Named(ms)
  {
    if ms != [] {
      var front, m := ms[..|ms| - 1], ms[|ms| - 1];
      assert m in ms && ItemsOf(ms)[..|front|] == ItemsOf(front);
      ListReadBack(front);
      if HasName(Named(front), m.sn) {
        var k :| 0 <= k < |Named(front)| && Named(front)[k].sn == m.sn;
        NamedAreMembers(front, k);
        assert false;
      }
    }
  }

  // A free id exists whenever the list is shorter than the space of ids.

  function Range(n: nat): (s: set<int>)
    ensures |s| == n && forall i :: i in s <==> 0 <= i < n
  {
    if n == 0 then {} else Range(n - 1) + {n - 1}
  }

  function Ids(ms: seq<Member>): (s: set<int>)
    ensures |s| <= |ms| && forall id :: id in s <==> HasId(ms, id)
  {
    if ms == [] then {}
    else
      var last := ms[|ms| - 1];
      assert ms == ms[..|ms| - 1] + [last];
      Ids(ms[..|ms| - 1]) + {last.id}
  }

  lemma Subset(a: set<int>, b: set<int>)
    requires a <= b
    ensures |a| <= |b|
  {
    assert b == a + (b - a);
  }

  /** Pigeonhole. */
  lemma SomeIdFree(ms: seq<Member>)
    requires |ms| < 0x1_0000
    ensures exists id: uint16 :: !HasId(ms, id)
  {
    if forall id: uint16 :: HasId(ms, id) {
      Subset(Range(0x1_0000), Ids(ms));
    }
  }

  /** The id that is tried in the k-th turn. */
  function Tried(k: nat): uint16 { (1 + k) % 0x1_0000 }

  lemma TriedAfter(k: nat)
    ensures Tried(k + 1) == (Tried(k) + 1) % 0x1_0000
    ensures k < 0xffff ==> Tried(k) == k + 1
    ensures k == 0xffff ==> Tried(k) == 0
  {
  }

  /** The id a new buddy gets: the least positive one that is free, or 0 when that is the only one left. */
  ghost predicate IsNext(ms: seq<Member>, id: uint16) {
    && !HasId(ms, id)
    && forall lower | 1 <= lower < (if id == 0 then 0x1_0000 else id) :: HasId(ms, lower)
  }

  lemma AddKeeps(ms: seq<Member>, m: Member)
    requires DistinctNames(ms) && DistinctIds(ms)
    requires HasName(ms, m.sn) || !HasId(ms, m.id)
    ensures var after := AddMember(ms, m);
            && DistinctNames(after) && DistinctIds(after) && HasName(after, m.sn)
            && forall n | HasName(ms, n) :: HasName(after, n)
  {
    var after := AddMember(ms, m);
    assert after != ms ==> after[|ms|] == m;
    forall n | HasName(ms, n)
      ensures HasName(after, n)
    {
      var k :| 0 <= k < |ms| && ms[k].sn == n;
      assert after[k].sn == n;
    }
  }

  ghost predicate IsFirst(ms: seq<Member>, sname: Name, m: Member) {
    exists k | 0 <= k < |ms| :: ms[k] == m && m.sn == sname && forall i | 0 <= i < k :: ms[i].sn != sname
  }

  /** The list without the first buddy of a name. */
  function RemoveMember(ms: seq<Member>, sname: Name): seq<Member> {
    if ms == [] then [] else if ms[0].sn == sname then ms[1..] else [ms[0]] + RemoveMember(ms[1..], sname)
  }

  lemma {:induction false} RemoveAt(ms: seq<Member>, sname: Name, k: nat)
    requires k <= |ms| && (forall i | 0 <= i < k :: ms[i].sn != sname) && (k < |ms| ==> ms[k].sn == sname)
    ensures RemoveMember(ms, sname) == if k < |ms| then Without(ms, k) else ms
  {
    if k > 0 {
      RemoveAt(ms[1..], sname, k - 1);
    }
  }

  /** Adding a new buddy and removing it again leaves the list as it was. */
  lemma AddThenRemove(ms: seq<Member>, m: Member)
    requires !HasName(ms, m.sn)
    ensures RemoveMember(AddMember(ms, m), m.sn) == ms
  {
    RemoveAt(AddMember(ms, m), m.sn, |ms|);
  }

  // Runs of additions and removals.

  datatype Change = Added(sn: Name) | Removed(sn: Name)

  /** Whether a buddy is on the list after changes: as the last change that names it says. */
  predicate Present(was: bool, changes: seq<Change>, sname: Name) {
    if changes == [] then was
    else
      var front, last := changes[..|changes| - 1], changes[|changes| - 1];
      if Simplify(last.sn) == sname then last.Added? else Present(was, front, sname)
  }

  ghost predicate Touched(changes: seq<Change>, sname: Name) { exists c | c in changes :: Simplify(c.sn) == sname }

  /** The names are those that the changes leave, and entries that no change names stay as they are. */
  ghost predicate Follows(before: seq<Member>, changes: seq<Change>, after: seq<Member>) {
    && (forall n: Name :: HasName(after, n) <==> Present(HasName(before, n), changes, n))
    && forall m: Member :: !Touched(changes, m.sn) ==> (m in after <==> m in before)
  }

  ghost predicate Short(ms: seq<Member>) { forall m | m in ms :: |m.formatted| < 0xfff6 }

  lemma ChangesSnoc(was: bool, changes: seq<Change>, c: Change, sname: Name)
    ensures Present(was, changes + [c], sname) ==
            if Simplify(c.sn) == sname then c.Added? else Present(was, changes, sname)
    ensures Touched(changes + [c], sname) <==> Touched(changes, sname) || Simplify(c.sn) == sname
  {
    hide Simplify;
    assert (changes + [c])[..|changes|] == changes;
    assert forall d :: d in changes + [c] <==> d in changes || d == c;
  }

  /** One more change, after which the names and the other entries are as they should be. */
  lemma FollowsSnoc(before: seq<Member>, changes: seq<Change>, ms: seq<Member>, c: Change, after: seq<Member>)
    requires Follows(before, changes, ms)
    requires forall n: Name :: HasName(after, n) <==> if Simplify(c.sn) == n then c.Added? else HasName(ms, n)
    requires forall m: Member | m.sn != Simplify(c.sn) :: m in after <==> m in ms
    ensures Follows(before, changes + [c], after)
  {
    hide HasName, Simplify, Present, Touched;
    forall n: Name
      ensures HasName(after, n) <==> Present(HasName(before, n), changes + [c], n)
    {
      ChangesSnoc(HasName(before, n), changes, c, n);
    }
    forall m: Member
      ensures !Touched(changes + [c], m.sn) ==> (m in after <==> m in before)
    {
      ChangesSnoc(true, changes, c, m.sn);
    }
  }

  lemma NameOf(ms: seq<Member>, n: Name)
    ensures HasName(ms, n) <==> exists m | m in ms :: m.sn == n
  {
  }

  lemma FollowsAdd(before: seq<Member>, changes: seq<Change>, ms: seq<Member>, sn: Name, m: Member)
    requires Follows(before, changes, ms) && m.sn == Simplify(sn)
    ensures Follows(before, changes + [Added(sn)], AddMember(ms, m))
  {
    hide Simplify, Follows;
    var after := AddMember(ms, m);
    forall n: Name
      ensures HasName(after, n) <==> m.sn == n || HasName(ms, n)
    {
      if HasName(ms, n) {
        var k :| 0 <= k < |ms| && ms[k].sn == n;
        assert after[k].sn == n;
      }
      assert after != ms ==> after[|ms|] == m;
    }
    FollowsSnoc(before, changes, ms, Added(sn), after);
  }

  lemma WithoutHas(ms: seq<Member>, k: nat, m: Member)
    requires k < |ms| && DistinctNames(ms)
    ensures m in Without(ms, k) <==> m in ms && m.sn != ms[k].sn
  {
    if m in ms && m.sn != ms[k].sn {
      var i :| 0 <= i < |ms| && ms[i] == m;
      assert Without(ms, k)[if i < k then i else i - 1] == m;
    }
    if m in Without(ms, k) {
      var i :| 0 <= i < |ms| - 1 && Without(ms, k)[i] == m;
      assert ms[if i < k then i else i + 1] == m;
    }
  }

  lemma WithoutRest(ms: seq<Member>, k: nat)
    requires k < |ms| && DistinctNames(ms)
    ensures forall m :: m in Without(ms, k) <==> m in ms && m.sn != ms[k].sn
  {
    hide *;
    forall m {
      WithoutHas(ms, k, m);
    }
  }

  lemma WithoutKeeps(ms: seq<Member>, k: nat)
    requires k < |ms| && DistinctNames(ms)
    ensures var after := Without(ms, k);
            && |after| < |ms| && DistinctNames(after) && (DistinctIds(ms) ==> DistinctIds(after))
  {
    var after := Without(ms, k);
    assert forall i | 0 <= i < |after| :: after[i] == ms[if i < k then i else i + 1];
    hide Without;
  }

  /** What the removal of a name leaves: everything else, in order, with nothing doubled. */
  lemma RemoveKeeps(ms: seq<Member>, sname: Name)
    requires DistinctNames(ms)
    ensures var after := RemoveMember(ms, sname);
            && |after| <= |ms| && DistinctNames(after) && (DistinctIds(ms) ==> DistinctIds(after))
            && (forall m :: m in after <==> m in ms && m.sn != sname)
  {
    if HasName(ms, sname) {
      var k :| 0 <= k < |ms| && ms[k].sn == sname;
      RemoveAt(ms, sname, k);
      WithoutKeeps(ms, k);
      WithoutRest(ms, k);
      hide *;
    } else {
      RemoveAt(ms, sname, |ms|);
    }
  }

  lemma FollowsRemove(before: seq<Member>, changes: seq<Change>, ms: seq<Member>, sn: Name)
    requires Follows(before, changes, ms) && DistinctNames(ms)
    ensures Follows(before, changes + [Removed(sn)], RemoveMember(ms, Simplify(sn)))
  {
    var after := RemoveMember(ms, Simplify(sn));
    RemoveKeeps(ms, Simplify(sn));
    hide Simplify, Follows, RemoveMember, DistinctNames, DistinctIds, HasName;
    forall n: Name
      ensures HasName(after, n) <==> Simplify(sn) != n && HasName(ms, n)
    {
      NameOf(after, n);
      NameOf(ms, n);
    }
    FollowsSnoc(before, changes, ms, Removed(sn), after);
  }

  lemma MergeStep(ms: seq<Member>, items: seq<Item>, x: nat)
    requires x < |items|
    ensures Merge(ms, items[..0]) == ms
    ensures Merge(ms, items[..x + 1]) ==
            if IsBuddy(items[x]) then AddMember(Merge(ms, items[..x]), Entry(items[x])) else Merge(ms, items[..x])
  {
    assert items[..x + 1][..x] == items[..x];
  }

  /** A change to the server's list: the start and the end of an edit around one item. */
  function Edit(subtype: uint16, item: Item): seq<Senders.Request>
    requires Sendable(item)
  {
    [Senders.Request(0x13, 0x11, [], false), Senders.Request(0x13, subtype, PrintItem(item), false),
     Senders.Request(0x13, 0x12, [], false)]
  }

  lemma Counted(data: seq<byte>, version: byte, items: seq<Item>, rest: seq<byte>)
    requires |items| < 0x1_0000 && forall item | item in items :: Sendable(item)
    requires data == [version] + Be16(|items|) + PrintItems(items) + rest
    ensures Of16(data[1..3]) == |items| && data[3..] == PrintItems(items[0..]) + rest
  {
    hide *;
    assert items[0..] == items;
    Regroup([version] + Be16(|items|), PrintItems(items), rest);
    ThreeParts(version, Be16(|items|), PrintItems(items) + rest);
    Value16(|items|);
  }

  lemma ThreeParts(version: byte, count: seq<byte>, all: seq<byte>)
    requires |count| == 2
    ensures var data := [version] + count + all; data[1..3] == count && data[3..] == all
  {
  }

  lemma Regroup<T>(a: seq<T>, b: seq<T>, c: seq<T>)
    ensures a + b + c == a + (b + c)
  {
  }

  /** An item as the reader meets it, part by part. */
  lemma ItemParts(item: Item, rest: seq<byte>)
    requires Sendable(item)
    ensures PrintItem(item) + rest ==
            Be16(|item.name|) + (item.name + (Be16(item.group) + (Be16(item.id)
            + (Be16(item.kind) + (Be16(|item.extra|) + (item.extra + rest))))))
  {
    var a, b, c, d, e, f, g := Be16(|item.name|), item.name, Be16(item.group), Be16(item.id), Be16(item.kind),
                               Be16(|item.extra|), item.extra;
    Regroup(a + b + c + d + e + f, g, rest);
    Regroup(a + b + c + d + e, f, g + rest);
    Regroup(a + b + c + d, e, f + (g + rest));
    Regroup(a + b + c, d, e + (f + (g + rest)));
    Regroup(a + b, c, d + (e + (f + (g + rest))));
    Regroup(a, b, c + (d + (e + (f + (g + rest)))));
  }

  method Next16(p: Packet, ghost v: uint16, ghost rest: seq<byte>) returns (r: uint16)
    requires p.offset <= p.data.Length && p.data[p.offset..] == Be16(v) + rest
    modifies p
    ensures p.offset <= p.data.Length && p.data[p.offset..] == rest && r == v
  {
    ghost var x := p.offset;
    r := p.Get16();
    assert p.data[x..][..2] == p.data[x..p.offset] && p.data[x..][2..] == p.data[p.offset..];
    Value16(v);
  }

  method NextRaw(p: Packet, len: uint16, ghost bytes: seq<byte>, ghost rest: seq<byte>) returns (r: seq<byte>)
    requires p.offset <= p.data.Length && p.data[p.offset..] == bytes + rest && len == |bytes|
    modifies p
    ensures p.offset <= p.data.Length && p.data[p.offset..] == rest && r == bytes
  {
    ghost var x := p.offset;
    r := p.GetRaw(len);
    assert p.data[x..][..len] == p.data[x..p.offset] && p.data[x..][len..] == p.data[p.offset..];
  }

  method SkipRaw(p: Packet, len: uint16, ghost bytes: seq<byte>, ghost rest: seq<byte>)
    requires p.offset <= p.data.Length && p.data[p.offset..] == bytes + rest && len == |bytes|
    modifies p
    ensures p.offset <= p.data.Length && p.data[p.offset..] == rest
  {
    ghost var x := p.offset;
    p.Skip(len);
    assert p.data[x..][len..] == p.data[p.offset..];
  }

  lemma ItemsStep(items: seq<Item>, x: nat, rest: seq<byte>)
    requires x < |items| && forall item | item in items :: Sendable(item)
    ensures PrintItems(items[x..]) + rest == PrintItem(items[x]) + (PrintItems(items[x + 1..]) + rest)
  {
    hide PrintItem;
    assert items[x..][1..] == items[x + 1..];
  }

  /** What the reader of one item does. */
  method ReadItem(p: Packet, ghost item: Item, ghost rest: seq<byte>)
    returns (name: seq<byte>, group_id: uint16, id: uint16, kind: uint16)
    requires Sendable(item) && p.offset <= p.data.Length && p.data[p.offset..] == PrintItem(item) + rest
    modifies p
    ensures p.offset <= p.data.Length && p.data[p.offset..] == rest
    ensures name == item.name && group_id == item.group && id == item.id && kind == item.kind
  {
    ItemParts(item, rest);
    hide Be16, PrintItem;
    ghost var last := item.extra + rest;
    ghost var numbers := Be16(item.id) + (Be16(item.kind) + (Be16(|item.extra|) + last));
    var length := Next16(p, |item.name|, item.name + (Be16(item.group) + numbers));
    name := NextRaw(p, length, item.name, Be16(item.group) + numbers);
    group_id := Next16(p, item.group, numbers);
    id := Next16(p, item.id, Be16(item.kind) + (Be16(|item.extra|) + last));
    kind := Next16(p, item.kind, Be16(|item.extra|) + last);
    var tlvlen := Next16(p, |item.extra|, last);
    SkipRaw(p, tlvlen, item.extra, rest);
  }

  class BuddyList {
    var members: seq<Member>

    constructor ()
      ensures members == []
    {
      members := [];
    }

    /** The loops that look for a name. */
    method Holds(sname: Name) returns (found: bool)
      ensures found <==> HasName(members, sname)
    {
      for k := 0 to |members|
        invariant forall i | 0 <= i < k :: members[i].sn != sname
      {
        if members[k].sn == sname {
          return true;
        }
      }
      return false;
    }

    /** The inner loop of imcomm_get_next_id. */
    method Taken(id: uint16) returns (found: bool)
      ensures found <==> HasId(members, id)
    {
      for k := 0 to |members|
        invariant forall i | 0 <= i < k :: members[i].id != id
      {
        if members[k].id == id {
          return true;
        }
      }
      return false;
    }

    /**
     imcomm_get_next_id, which returns only if some id is free: the least positive one, or 0 when
     that is the only one left.
     */
    method NextId() returns (firstid: uint16)
      requires exists id: uint16 :: !HasId(members, id)
      ensures IsNext(members, firstid)
    {
      ghost var free: uint16 :| !HasId(members, free);
      ghost var last: nat := if free == 0 then 0xffff else free - 1;
      TriedAfter(last);
      firstid := 1;
      ghost var k := 0;
      var found := Taken(firstid);
      while found
        invariant k <= last && firstid == Tried(k) && (found <==> HasId(members, firstid))
        invariant forall id | 1 <= id <= k :: HasId(members, id)
        decreases last - k
      {
        TriedAfter(k);
        firstid, k := (firstid + 1) % 0x1_0000, k + 1;
        found := Taken(firstid);
      }
      TriedAfter(k);
    }

    /** imcomm_addtobuddylist. */
    method AddToList(sn: Name, id: uint16, group_id: uint16)
      modifies this
      ensures members == AddMember(old(members), Member(Simplify(sn), sn, id, group_id))
    {
      var sname := SimplifySn(sn);
      var found := Holds(sname);
      if found {
        return;
      }
      members := members + [Member(sname, sn, id, group_id)];
    }

    /**
     imcomm_im_add_buddy: the new entry, and the batch of SNACs that tells the server about it. The
     group of the entry is what the memory held.
     */
    method AddBuddy(host: Host, sn: Name) returns (sent: seq<Senders.Request>, ghost m: Member)
      requires |sn| < 0xfff6
      requires HasName(members, Simplify(sn)) || exists id: uint16 :: !HasId(members, id)
      modifies this
      ensures members == AddMember(old(members), m) && m.sn == m.formatted == Simplify(sn)
      ensures Sendable(AddedItem(m))
      ensures if HasName(old(members), Simplify(sn)) then sent == []
              else IsNext(old(members), m.id) && sent == Edit(0x08, AddedItem(m))
    {
      SimplifyShortens(sn);
      var sname := SimplifySn(sn);
      var group: uint16 := *;
      var found := Holds(sname);
      if found {
        return [], Member(sname, sname, 0, group);
      }
      var nextid := NextId();
      m := Member(sname, sname, nextid, group);
      members := members + [Member(sname, sname, nextid, group)];
      var p := NewItem(host, sname, 0x0001, nextid);
      sent := [Senders.Request(0x13, 0x11, [], false)];
      sent := sent + [Senders.Request(0x13, 0x08, p.data[..], false)];
      sent := sent + [Senders.Request(0x13, 0x12, [], false)];
    }

    /** imcomm_im_remove_buddy: the entry leaves the list, and a batch of SNACs tells the server. */
    method RemoveBuddy(host: Host, sn: Name) returns (sent: seq<Senders.Request>, ghost gone: seq<Member>)
      requires forall m | m in members :: |m.formatted| < 0xfff6
      modifies this
      ensures members == RemoveMember(old(members), Simplify(sn))
      ensures if HasName(old(members), Simplify(sn))
              then |gone| == 1 && IsFirst(old(members), Simplify(sn), gone[0])
                   && Sendable(RemovalItem(gone[0])) && sent == Edit(0x0a, RemovalItem(gone[0]))
              else sent == [] && gone == []
    {
      var sname := SimplifySn(sn);
      for k := 0 to |members|
        invariant members == old(members) && forall i | 0 <= i < k :: members[i].sn != sname
      {
        if members[k].sn == sname {
          var temp := members[k];
          assert temp in members;
          gone := [temp];
          RemoveAt(members, sname, k);
          members := members[..k] + members[k + 1..];
          var p := NewItem(host, temp.formatted, temp.group, temp.id);
          sent := [Senders.Request(0x13, 0x11, [], false)];
          sent := sent + [Senders.Request(0x13, 0x0a, p.data[..], false)];
          sent := sent + [Senders.Request(0x13, 0x12, [], false)];
          return;
        }
      }
      RemoveAt(members, sname, |members|);
      return [], [];
    }

    /** One change, which keeps names and ids distinct. */
    method Perform(host: Host, c: Change, ghost before: seq<Member>, ghost changes: seq<Change>)
      requires DistinctNames(members) && DistinctIds(members) && Follows(before, changes, members)
      requires if c.Added? then |members| < 0x1_0000 && |c.sn| < 0xfff6 else Short(members)
      modifies this
      ensures DistinctNames(members) && DistinctIds(members) && Follows(before, changes + [c], members)
      ensures |members| <= |old(members)| + 1 && (c.Added? ==> old(members) <= members)
      ensures Short(old(members)) ==> Short(members)
    {
      hide Simplify, Follows;
      ghost var ms := members;
      match c
      case Added(sn) =>
        SomeIdFree(members);
        SimplifyShortens(sn);
        var sent, m := AddBuddy(host, sn);
        AddKeeps(ms, m);
        FollowsAdd(before, changes, ms, sn, m);
      case Removed(sn) =>
        var sent, gone := RemoveBuddy(host, sn);
        RemoveKeeps(ms, Simplify(sn));
        FollowsRemove(before, changes, ms, sn);
    }

    /**
     Buddies added and removed in any order, whatever the server's list was: names and ids stay
     distinct, and each name is on the list if the last change that names it was an addition.
     */
    method ChangeAll(host: Host, changes: seq<Change>)
      requires |members| + |changes| <= 0x1_0000 && DistinctNames(members) && DistinctIds(members)
      requires forall c | c in changes :: if c.Added? then |c.sn| < 0xfff6 else Short(members)
      modifies this
      ensures DistinctNames(members) && DistinctIds(members) && Follows(old(members), changes, members)
      ensures (forall c | c in changes :: c.Added?) ==> old(members) <= members
    {
      hide DistinctNames, DistinctIds, Follows, Short, Simplify;
      FollowsNone(members);
      for k := 0 to |changes|
        invariant |members| <= |old(members)| + k && (Short(old(members)) ==> Short(members))
        invariant DistinctNames(members) && DistinctIds(members) && Follows(old(members), changes[..k], members)
        invariant (forall c | c in changes :: c.Added?) ==> old(members) <= members
      {
        assert changes[k] in changes;
        Perform(host, changes[k], old(members), changes[..k]);
        assert changes[..k] + [changes[k]] == changes[..k + 1];
      }
      assert changes[..|changes|] == changes;
    }

    /**
     A buddy that was not on the list is added and removed again: the list is as it was, and the
     server is told to remove what it was told to add, exactly if the group happens to be 1.
     */
    method AddAndRemove(host: Host, sn: Name)
      returns (added: seq<Senders.Request>, removed: seq<Senders.Request>, ghost m: Member)
      requires |sn| < 0xfff6 && Short(members) && |members| < 0x1_0000 && !HasName(members, Simplify(sn))
      modifies this
      ensures members == old(members) && m.sn == m.formatted == Simplify(sn) && IsNext(members, m.id)
      ensures |added| == |removed| == 3
      ensures added[0] == removed[0] == Senders.Request(0x13, 0x11, [], false)
      ensures added[1].family == removed[1].family == 0x13 && added[1].subtype == 0x08 && removed[1].subtype == 0x0a
      ensures added[2] == removed[2] == Senders.Request(0x13, 0x12, [], false)
      ensures Sendable(AddedItem(m)) && added[1].data == PrintItem(AddedItem(m))
      ensures added[1].data == removed[1].data <==> m.group == 0x0001
    {
      hide Simplify, PrintItem;
      SomeIdFree(members);
      SimplifyShortens(sn);
      ghost var ms := members;
      added, m := AddBuddy(host, sn);
      ghost var gone;
      removed, gone := RemoveBuddy(host, sn);
      AddThenRemove(ms, m);
      assert AddMember(ms, m)[|ms|] == m;
      RemovalNamesAdded(m);
    }

    /** snac_ssi_get_list. */
    method GetList(p: Packet, ghost version: byte, ghost items: seq<Item>, ghost rest: seq<byte>)
      requires p.offset == 0 && |items| < 0x1_0000 && forall item | item in items :: Sendable(item)
      requires p.data[..] == [version] + Be16(|items|) + PrintItems(items) + rest
      modifies this, p
      ensures members == Merge(old(members), items)
    {
      Counted(p.data[..], version, items, rest);
      assert p.data[..][1..3] == p.data[1..3] && p.data[..][3..] == p.data[3..];
      hide Be16, PrintItem, PrintItems, Merge, AddMember;
      var v := p.Get8();
      var count := p.Get16();
      assert items[..0] == [];
      for x := 0 to count
        invariant p.offset <= p.data.Length && p.data[p.offset..] == PrintItems(items[x..]) + rest
        invariant members == Merge(old(members), items[..x])
      {
        ItemsStep(items, x, rest);
        var name, group_id, id, kind := ReadItem(p, items[x], PrintItems(items[x + 1..]) + rest);
        if kind == 0x0000 && name != [] {
          AddToList(name, id, group_id);
        }
        MergeStep(old(members), items, x);
      }
      assert items[..|items|] == items;
    }

    /**
     The server's list is read, whatever groups it holds, and buddies are added and removed: names
     and ids are distinct if the buddies on the server had ids of their own.
     */
    method GetListAndChange(host: Host, p: Packet, ghost version: byte, ghost items: seq<Item>, ghost rest: seq<byte>,
                            changes: seq<Change>)
      requires p.offset == 0 && |items| < 0x1_0000 && forall item | item in items :: Sendable(item)
      requires p.data[..] == [version] + Be16(|items|) + PrintItems(items) + rest
      requires DistinctNames(members) && DistinctIds(members) && OwnIds(members, items)
      requires |members| + |items| + |changes| <= 0x1_0000
      requires forall c | c in changes :: if c.Added? then |c.sn| < 0xfff6 else Short(Merge(members, items))
      modifies this, p
      ensures DistinctNames(members) && DistinctIds(members)
      ensures Follows(Merge(old(members), items), changes, members)
      ensures (forall c | c in changes :: c.Added?) ==> Merge(old(members), items) <= members
    {
      hide *;
      MergeDistinct(members, items);
      MergeLength(members, items);
      GetList(p, version, items, rest);
      ChangeAll(host, changes);
    }
  }

  lemma FollowsNone(ms: seq<Member>)
    ensures Follows(ms, [], ms)
  {
  }

  lemma {:induction false} MergeLength(ms: seq<Member>, items: seq<Item>)
    ensures |Merge(ms, items)| <= |ms| + |items|
  {
    if items != [] {
      MergeLength(ms, items[..|items| - 1]);
    }
  }

  /** The name with its length, as every item begins. */
  method AddName(p: Packet, sname: Name)
    requires |sname| < 0xfff6 && p.offset == 0 && 2 + |sname| <= p.data.Length
    modifies p, p.data
    ensures p.offset == 2 + |sname| && p.Written() == Be16(|sname|) + sname
  {
    var ok0 := p.Add16(|sname|);
    var ok1 := p.AddRaw(sname);
  }

  /** The four numbers that every item without data ends with. */
  method AddNumbers(p: Packet, group: uint16, id: uint16)
    requires p.offset + 8 <= p.data.Length
    modifies p, p.data
    ensures p.offset == old(p.offset) + 8
    ensures p.Written() == old(p.Written()) + Be16(group) + Be16(id) + Be16(0x0000) + Be16(0x0000)
  {
    hide Be16;
    var ok2 := p.Add16(group);
    var ok3 := p.Add16(id);
    var ok4 := p.Add16(0x0000);
    var ok5 := p.Add16(0x0000);
  }

  method NewItem(host: Host, sname: Name, group: uint16, id: uint16) returns (p: Packet)
    requires |sname| < 0xfff6
    ensures p.offset == p.data.Length
    ensures p.data[..] == PrintItem(Item(sname, group, id, 0x0000, []))
  {
    hide Be16;
    p := new Packet(host, 10 + |sname|);
    AddName(p, sname);
    AddNumbers(p, group, id);
    assert p.data[..] == p.Written();
  }

  lemma {:induction false} SimplifyShortens(sn: Name)
    ensures |Simplify(sn)| <= |sn|
  {
    if sn != [] {
      SimplifyShortens(sn[..|sn| - 1]);
    }
  }
}
