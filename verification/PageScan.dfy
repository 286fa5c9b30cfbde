/** Following page tokens over a table that other writers append to. */
module PageScan {
  import opened Wrappers
  import opened Paging

  // ---- Row order ----

  predicate BytesLt(a: seq<Byte>, b: seq<Byte>)
    requires |a| == |b|
  {
    a != [] && (a[0] < b[0] || (a[0] == b[0] && BytesLt(a[1..], b[1..])))
  }

  /** The order of the query: by timestamp, then by content hash. */
  predicate RowLt(a: Row, b: Row) {
    a.ns < b.ns || (a.ns == b.ns && BytesLt(a.id, b.id))
  }

  lemma {:induction false} BytesOrder(a: seq<Byte>, b: seq<Byte>, c: seq<Byte>)
    requires |a| == |b| == |c|
    ensures BytesLt(a, b) && BytesLt(b, c) ==> BytesLt(a, c)
    ensures !(BytesLt(a, b) && BytesLt(b, a))
    ensures a == b || BytesLt(a, b) || BytesLt(b, a)
  {
    if a != [] {
      BytesOrder(a[1..], b[1..], c[1..]);
      assert a == [a[0]] + a[1..] && b == [b[0]] + b[1..];
    }
  }

  lemma RowOrder(a: Row, b: Row, c: Row)
    ensures RowLt(a, b) && RowLt(b, c) ==> RowLt(a, c)
    ensures !(RowLt(a, b) && RowLt(b, a))
    ensures a == b || RowLt(a, b) || RowLt(b, a)
  {
    BytesOrder(a.id, b.id, c.id);
  }

  /** A scan position: before every row, or right behind one. */
  predicate Beyond(position: Option<Row>, r: Row) {
    position.Some? ==> RowLt(position.value, r)
  }

  predicate Ascending(rows: seq<Row>) {
    forall i, j :: 0 <= i < j < |rows| ==> RowLt(rows[i], rows[j])
  }

  // ---- The database's part ----

  /** The matching rows beyond the position in ascending order, cut off after `limit` of them. */
  predicate Selected(table: set<Row>, matching: Row -> bool, position: Option<Row>, limit: nat, rows: seq<Row>) {
    && Ascending(rows)
    && |rows| <= limit
    && (forall r :: r in rows ==> r in table && matching(r) && Beyond(position, r))
    && (forall r :: r in table && matching(r) && Beyond(position, r) && r !in rows ==>
          |rows| == limit && forall q :: q in rows ==> RowLt(q, r))
  }

  /** One request: the table as it is then, and the rows the database hands out. */
  datatype Round = Round(table: set<Row>, rows: seq<Row>)

  function Token(limit: nat, rounds: seq<Round>): Option<seq<Byte>>
    requires limit >= 1
  {
    if rounds == [] then None else PageFrom(limit, rounds[|rounds| - 1].rows).nextPageToken
  }

  /** Where the next request starts: what its token decodes to. */
  function Position(limit: nat, rounds: seq<Round>): (p: Option<Row>)
    requires limit >= 1
    ensures p.Some? <==> Token(limit, rounds).Some?
  {
    var token := Token(limit, rounds);
    if token.None? then
      None
    else
      TokenRoundTrip(token.value);
      var c := DecodeCursor(token.value).value;
      Some(Row(c.ns, c.digest))
  }

  function Returned(limit: nat, rounds: seq<Round>): seq<Row>
    requires limit >= 1
  {
    if rounds == [] then
      []
    else
      Returned(limit, rounds[..|rounds| - 1]) + PageFrom(limit, rounds[|rounds| - 1].rows).receipts
  }

  /** The caller goes on while it is given a token; the table only ever grows. */
  predicate Scan(limit: nat, matching: Row -> bool, rounds: seq<Round>)
    requires limit >= 1
  {
    rounds != [] ==>
      var before, last := rounds[..|rounds| - 1], rounds[|rounds| - 1];
      && Scan(limit, matching, before)
      && (before != [] ==> Token(limit, before).Some? && before[|before| - 1].table <= last.table)
      && Selected(last.table, matching, Position(limit, before), limit + 1, last.rows)
  }

  predicate Finished(limit: nat, rounds: seq<Round>)
    requires limit >= 1
  {
    rounds != [] && Token(limit, rounds).None?
  }

  // ---- Proofs ----

  /** The decoded token is the last row handed out. */
  lemma PositionIsLast(limit: nat, matching: Row -> bool, rounds: seq<Round>)
    requires limit >= 1 && rounds != [] && Scan(limit, matching, rounds) && Token(limit, rounds).Some?
    ensures var rows := rounds[|rounds| - 1].rows;
      |rows| == limit + 1 && Position(limit, rounds) == Some(rows[limit - 1])
  {
    var rows := rounds[|rounds| - 1].rows;
    CursorRoundTrip(CursorOf(rows[limit - 1]));
  }

  function Last(rounds: seq<Round>): Round
    requires rounds != []
  {
    rounds[|rounds| - 1]
  }

  function Kept(limit: nat, rounds: seq<Round>): seq<Row>
    requires limit >= 1 && rounds != []
  {
    PageFrom(limit, Last(rounds).rows).receipts
  }

  predicate AtMost(a: Row, b: Row) {
    a == b || RowLt(a, b)
  }

  /** The row lies beyond the position after the first rounds and not beyond the one after the later ones. */
  predicate Between(limit: nat, first: seq<Round>, later: seq<Round>, r: Row)
    requires limit >= 1
  {
    && Beyond(Position(limit, first), r)
    && (Position(limit, later).Some? ==> AtMost(r, Position(limit, later).value))
  }

  /** Of the matching rows now in the table, a page has exactly those from its start up to the next position. */
  lemma PageExactly(limit: nat, matching: Row -> bool, rounds: seq<Round>, r: Row)
    requires limit >= 1 && rounds != [] && Scan(limit, matching, rounds)
    requires r in Last(rounds).table && matching(r)
    ensures r in Kept(limit, rounds) <==> Between(limit, rounds[..|rounds| - 1], rounds, r)
  {
    hide RowLt, Position;
    var rows := Last(rounds).rows;
    if Token(limit, rounds).Some? {
      PositionIsLast(limit, matching, rounds);
      var edge := rows[limit - 1];
      if r in rows {
        var i :| 0 <= i < |rows| && rows[i] == r;
        RowOrder(edge, r, r);
        assert i < limit ==> rows[..limit][i] == r;
      } else {
        RowOrder(edge, r, r);
      }
    }
  }

  /** A page starts beyond its position and ends at the next one. */
  lemma PageBounds(limit: nat, matching: Row -> bool, rounds: seq<Round>)
    requires limit >= 1 && rounds != [] && Scan(limit, matching, rounds)
    ensures Ascending(Kept(limit, rounds))
    ensures forall r :: r in Kept(limit, rounds) ==>
      r in Last(rounds).table && matching(r) && Between(limit, rounds[..|rounds| - 1], rounds, r)
    ensures Token(limit, rounds).Some? ==> Beyond(Position(limit, rounds[..|rounds| - 1]), Position(limit, rounds).value)
  {
    hide RowLt, Position;
    forall r | r in Kept(limit, rounds)
      ensures Between(limit, rounds[..|rounds| - 1], rounds, r)
    {
      assert r in Last(rounds).rows;
      PageExactly(limit, matching, rounds, r);
    }
    if Token(limit, rounds).Some? {
      PositionIsLast(limit, matching, rounds);
    }
  }

  /** What has been handed out ascends strictly, matches, and ends where the next request starts. */
  lemma {:induction false} ReturnedAscends(limit: nat, matching: Row -> bool, rounds: seq<Round>)
    requires limit >= 1 && Scan(limit, matching, rounds)
    ensures Ascending(Returned(limit, rounds))
    ensures forall r :: r in Returned(limit, rounds) ==> rounds != [] && matching(r) && r in Last(rounds).table
    ensures Token(limit, rounds).Some? ==>
      forall r :: r in Returned(limit, rounds) ==> AtMost(r, Position(limit, rounds).value)
  {
    if rounds != [] {
      hide RowLt, Position, Selected, PageFrom;
      var before := rounds[..|rounds| - 1];
      ReturnedAscends(limit, matching, before);
      PageBounds(limit, matching, rounds);
      var done, kept := Returned(limit, before), Kept(limit, rounds);
      assert Returned(limit, rounds) == done + kept;
      if before != [] {
        var p := Position(limit, before).value;
        forall a, b | a in done && b in kept
          ensures RowLt(a, b)
        {
          RowOrder(a, p, b);
        }
        if Token(limit, rounds).Some? {
          var q := Position(limit, rounds).value;
          forall a | a in done
            ensures AtMost(a, q)
          {
            RowOrder(a, p, q);
          }
        }
        Joined(done, kept);
      }
    }
  }

  lemma Joined(a: seq<Row>, b: seq<Row>)
    requires Ascending(a) && Ascending(b) && forall x, y :: x in a && y in b ==> RowLt(x, y)
    ensures Ascending(a + b)
  {
  }

  /** A row that first shows in round k has been handed out exactly when it lies between the positions. */
  lemma {:induction false} ReturnedSoFar(limit: nat, matching: Row -> bool, rounds: seq<Round>, k: nat, r: Row)
    requires limit >= 1 && k < |rounds| && Scan(limit, matching, rounds) && FirstSeen(rounds, k, r) && matching(r)
    ensures r in Last(rounds).table
    ensures r in Returned(limit, rounds) <==> Between(limit, rounds[..k], rounds, r)
    ensures Token(limit, rounds).Some? ==> Beyond(Position(limit, rounds[..k]), Position(limit, rounds).value)
  {
    hide RowLt, Position, Selected, PageFrom;
    var before := rounds[..|rounds| - 1];
    PageBounds(limit, matching, rounds);
    ReturnedAscends(limit, matching, before);
    if k == |rounds| - 1 {
      assert rounds[..k] == before;
      assert before != [] ==> Last(before) == rounds[k - 1];
      PageExactly(limit, matching, rounds, r);
    } else {
      assert before[..k] == rounds[..k];
      ReturnedSoFar(limit, matching, before, k, r);
      PageExactly(limit, matching, rounds, r);
      var start, p := Position(limit, rounds[..k]), Position(limit, before).value;
      if start.Some? {
        RowOrder(start.value, p, r);
        if Token(limit, rounds).Some? {
          RowOrder(start.value, p, Position(limit, rounds).value);
        }
      }
      RowOrder(r, p, r);
      if Token(limit, rounds).Some? {
        RowOrder(r, p, Position(limit, rounds).value);
      }
    }
  }

  predicate FirstSeen(rounds: seq<Round>, k: nat, r: Row) {
    k < |rounds| && r in rounds[k].table && forall j :: 0 <= j < k ==> r !in rounds[j].table
  }

  /** A finished scan returns a matching row exactly when the row was there before the scan had gone past its place. */
  lemma ReturnedExactly(limit: nat, matching: Row -> bool, rounds: seq<Round>, k: nat, r: Row)
    requires limit >= 1 && Scan(limit, matching, rounds) && Finished(limit, rounds)
    requires FirstSeen(rounds, k, r) && matching(r)
    ensures r in Returned(limit, rounds) <==> Beyond(Position(limit, rounds[..k]), r)
  {
    hide RowLt, Position, Scan;
    ReturnedSoFar(limit, matching, rounds, k, r);
  }

  /** A finished scan returns, in ascending order and each once, every matching row that was there from the start. */
  lemma NothingIsSkipped(limit: nat, matching: Row -> bool, rounds: seq<Round>, r: Row)
    requires limit >= 1 && Scan(limit, matching, rounds) && Finished(limit, rounds)
    requires r in rounds[0].table && matching(r)
    ensures Ascending(Returned(limit, rounds)) && multiset(Returned(limit, rounds))[r] == 1
  {
    ReturnedAscends(limit, matching, rounds);
    ReturnedExactly(limit, matching, rounds, 0, r);
    AscendingHasOne(Returned(limit, rounds), r);
  }

  lemma {:induction false} AscendingHasOne(s: seq<Row>, r: Row)
    requires Ascending(s)
    ensures multiset(s)[r] == if r in s then 1 else 0
  {
    if s != [] {
      var front, last := s[..|s| - 1], s[|s| - 1];
      assert s == front + [last];
      AscendingHasOne(front, r);
      RowOrder(last, last, last);
      assert last !in front;
    }
  }

  lemma {:induction false} AscendingIsSet(s: seq<Row>)
    requires Ascending(s)
    ensures |set x | x in s| == |s|
  {
    if s != [] {
      var front, last := s[..|s| - 1], s[|s| - 1];
      assert s == front + [last];
      AscendingIsSet(front);
      RowOrder(last, last, last);
      assert last !in front;
      assert (set x | x in s) == (set x | x in front) + {last};
    }
  }

  lemma {:induction false} Within(a: set<Row>, b: set<Row>)
    requires a <= b
    ensures |a| <= |b|
  {
    if r :| r in a {
      Within(a - {r}, b - {r});
    }
  }

  /** Nobody appends during the scan. */
  predicate Still(table: set<Row>, rounds: seq<Round>) {
    forall k :: 0 <= k < |rounds| ==> rounds[k].table == table
  }

  lemma {:induction false} FullPages(limit: nat, matching: Row -> bool, rounds: seq<Round>)
    requires limit >= 1 && Scan(limit, matching, rounds)
    ensures Token(limit, rounds).Some? ==> |Returned(limit, rounds)| == |rounds| * limit
    ensures Finished(limit, rounds) ==> |Returned(limit, rounds)| >= (|rounds| - 1) * limit
  {
    if rounds != [] {
      hide Selected;
      var before := rounds[..|rounds| - 1];
      FullPages(limit, matching, before);
      OneMorePage(|before|, limit);
    }
  }

  lemma OneMorePage(n: nat, limit: nat)
    ensures (n + 1) * limit == n * limit + limit
  {
  }

  /** With no appends the pages make up the whole sorted result, and the scan ends after the pages that it fills. */
  lemma StillScan(limit: nat, matching: Row -> bool, rounds: seq<Round>, table: set<Row>)
    requires limit >= 1 && Scan(limit, matching, rounds) && Still(table, rounds) && rounds != []
    ensures var wanted := set r | r in table && matching(r);
      && Ascending(Returned(limit, rounds))
      && (Finished(limit, rounds) ==> (set r | r in Returned(limit, rounds)) == wanted)
      && |Returned(limit, rounds)| <= |wanted|
      && (|rounds| - 1) * limit <= |wanted|
      && (!Finished(limit, rounds) ==> |rounds| * limit <= |wanted|)
  {
    var wanted := set r | r in table && matching(r);
    var got := Returned(limit, rounds);
    ReturnedAscends(limit, matching, rounds);
    FullPages(limit, matching, rounds);
    var seen := set r | r in got;
    hide Scan, Ascending, Returned, Token, Position;
    AscendingIsSet(got);
    Within(seen, wanted);
    if Finished(limit, rounds) {
      forall r | r in wanted
        ensures r in seen
      {
        ReturnedExactly(limit, matching, rounds, 0, r);
      }
    }
  }

  /** Across all pages time never goes back, and within one nanosecond the content hashes rise by their bytes. */
  lemma TimeNeverGoesBack(limit: nat, matching: Row -> bool, rounds: seq<Round>, i: nat, j: nat)
    requires limit >= 1 && Scan(limit, matching, rounds) && i < j < |Returned(limit, rounds)|
    ensures var a, b := Returned(limit, rounds)[i], Returned(limit, rounds)[j];
      && a.ns <= b.ns
      && (a.ns == b.ns ==> exists k :: 0 <= k < DIGEST_LEN && a.id[..k] == b.id[..k] && a.id[k] < b.id[k])
  {
    ReturnedAscends(limit, matching, rounds);
    var a, b := Returned(limit, rounds)[i], Returned(limit, rounds)[j];
    assert RowLt(a, b);
    if a.ns == b.ns {
      var k := FirstDifference(a.id, b.id);
    }
  }

  lemma {:induction false} FirstDifference(a: seq<Byte>, b: seq<Byte>) returns (k: nat)
    requires |a| == |b| && BytesLt(a, b)
    ensures k < |a| && a[..k] == b[..k] && a[k] < b[k]
  {
    if a[0] < b[0] {
      k := 0;
    } else {
      var rest := FirstDifference(a[1..], b[1..]);
      k := rest + 1;
      assert a[..k] == [a[0]] + a[1..][..rest] && b[..k] == [b[0]] + b[1..][..rest];
    }
  }
}
