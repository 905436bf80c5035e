/** What a roster records, name by name, whatever the order of its list. */
module Directory {
  import opened Names
  import opened Lists
  import opened Wrappers

  /** What both rosters record about a buddy. */
  datatype Info = Info(away: bool, idletime: int)
  datatype Row = Row(sn: Name, info: Info)

  function Find(rows: seq<Row>, sn: Name): Option<Info> {
    if rows == [] then None else if rows[0].sn == sn then Some(rows[0].info) else Find(rows[1..], sn)
  }

  ghost predicate Unique(rows: seq<Row>) {
    forall i, j | 0 <= i < j < |rows| :: rows[i].sn != rows[j].sn
  }

  /** k is the position of sn, or the length when it is absent. */
  ghost predicate IsAt(rows: seq<Row>, sn: Name, k: nat) {
    && k <= |rows| && (forall i | 0 <= i < k :: rows[i].sn != sn) && (k < |rows| ==> rows[k].sn == sn)
  }

  lemma {:induction false} FindAt(rows: seq<Row>, sn: Name, k: nat)
    requires IsAt(rows, sn, k)
    ensures Find(rows, sn) == if k < |rows| then Some(rows[k].info) else None
  {
    if k > 0 {
      FindAt(rows[1..], sn, k - 1);
    }
  }

  lemma {:induction false} FindSplit(a: seq<Row>, b: seq<Row>, sn: Name)
    ensures Find(a + b, sn) == if Find(a, sn).Some? then Find(a, sn) else Find(b, sn)
  {
    if a == [] {
      assert a + b == b;
    } else {
      assert (a + b)[1..] == a[1..] + b;
      FindSplit(a[1..], b, sn);
    }
  }

  lemma {:induction false} Absent(rows: seq<Row>, sn: Name)
    requires forall i | 0 <= i < |rows| :: rows[i].sn != sn
    ensures Find(rows, sn) == None
  {
    if rows != [] {
      Absent(rows[1..], sn);
    }
  }

  lemma FindOne(r: Row, sn: Name)
    ensures Find([r], sn) == if r.sn == sn then Some(r.info) else None
  {
  }

  /** Inserting a new name anywhere. */
  lemma FindWith(rows: seq<Row>, k: nat, r: Row, sn: Name)
    requires k <= |rows| && Find(rows, r.sn) == None
    ensures Find(With(rows, k, r), sn) == if sn == r.sn then Some(r.info) else Find(rows, sn)
  {
    assert rows == rows[..k] + rows[k..];
    FindSplit(rows[..k], rows[k..], sn);
    FindSplit(rows[..k] + [r], rows[k..], sn);
    FindSplit(rows[..k], [r], sn);
    FindOne(r, sn);
  }

  /** Taking a name out of a list that has it once. */
  lemma FindWithout(rows: seq<Row>, k: nat, sn: Name)
    requires k < |rows| && Unique(rows)
    ensures Find(Without(rows, k), sn) == if sn == rows[k].sn then None else Find(rows, sn)
  {
    var r := rows[k];
    Absent(Without(rows, k), r.sn);
    FindWith(Without(rows, k), k, r, sn);
    PutBack(rows, k, r);
    assert rows[k := r] == rows;
  }

  /** Changing what is recorded about the first buddy of a name. */
  lemma FindUpdate(rows: seq<Row>, k: nat, r: Row, sn: Name)
    requires k < |rows| && Unique(rows) && r.sn == rows[k].sn
    ensures Find(rows[k := r], sn) == if sn == r.sn then Some(r.info) else Find(rows, sn)
  {
    Absent(Without(rows, k), r.sn);
    FindWith(Without(rows, k), k, r, sn);
    FindWithout(rows, k, sn);
    PutBack(rows, k, r);
  }

  /** Lists of unique names that record the same have the same length. */
  lemma {:induction false} SameLength(rows: seq<Row>, others: seq<Row>)
    requires Unique(rows) && Unique(others)
    requires forall sn :: Find(rows, sn).Some? <==> Find(others, sn).Some?
    ensures |rows| == |others|
  {
    if rows == [] {
      if others != [] {
        FindAt(others, others[0].sn, 0);
      }
    } else {
      var sn := rows[0].sn;
      assert Find(rows, sn).Some?;
      var k := Position(others, sn);
      forall n
        ensures Find(rows[1..], n).Some? <==> Find(Without(others, k), n).Some?
      {
        FindWithout(rows, 0, n);
        assert Without(rows, 0) == rows[1..];
        FindWithout(others, k, n);
      }
      SameLength(rows[1..], Without(others, k));
    }
  }

  lemma {:induction false} Position(rows: seq<Row>, sn: Name) returns (k: nat)
    requires Find(rows, sn).Some?
    ensures k < |rows| && rows[k].sn == sn
  {
    if rows[0].sn == sn {
      k := 0;
    } else {
      k := Position(rows[1..], sn);
      k := k + 1;
    }
  }
}
