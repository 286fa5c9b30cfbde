/** Entity snapshots and the canonical form that goes into the input digest. */
module Snapshots {
  import opened StableSort
  import opened Text

  datatype Uid = Uid(entityType: string, entityId: string)

  datatype EntityRecord = EntityRecord(uid: Uid, attrs: map<string, nat>, parents: seq<Uid>)

  // ---- Order ----

  predicate UidLe(a: Uid, b: Uid) {
    if a.entityType == b.entityType then TextLe(a.entityId, b.entityId) else TextLe(a.entityType, b.entityType)
  }

  predicate RecordLe(a: EntityRecord, b: EntityRecord) {
    UidLe(a.uid, b.uid)
  }

  lemma UidOrder()
    ensures TotalPreorder(UidLe)
    ensures TotalPreorder(RecordLe)
    ensures forall a, b :: UidLe(a, b) && UidLe(b, a) ==> a == b
  {
    hide TextLe;
    forall a, b, c
      ensures UidLe(a, b) || UidLe(b, a)
      ensures UidLe(a, b) && UidLe(b, a) ==> a == b
      ensures UidLe(a, b) && UidLe(b, c) ==> UidLe(a, c)
    {
      TextOrder(a.entityType, b.entityType, c.entityType);
      TextOrder(b.entityType, c.entityType, a.entityType);
      TextOrder(a.entityId, b.entityId, c.entityId);
    }
    hide UidLe;
    assert forall a: EntityRecord, b: EntityRecord :: RecordLe(a, b) || RecordLe(b, a);
  }

  // ---- The canonical form ----

  function CanonicalRecord(e: EntityRecord): EntityRecord {
    e.(parents := Sort(e.parents, UidLe))
  }

  function CanonicalRecords(s: seq<EntityRecord>): (r: seq<EntityRecord>)
    ensures |r| == |s|
    ensures forall i :: 0 <= i < |s| ==> r[i] == CanonicalRecord(s[i])
  {
    if s == [] then [] else CanonicalRecords(s[..|s| - 1]) + [CanonicalRecord(s[|s| - 1])]
  }

  function Canonical(snapshot: seq<EntityRecord>): seq<EntityRecord> {
    CanonicalRecords(Sort(snapshot, RecordLe))
  }

  /** Sorts a copy, then writes each record out with its parents sorted. */
  method Canonicalize(snapshot: seq<EntityRecord>) returns (r: seq<EntityRecord>)
    ensures r == Canonical(snapshot)
  {
    hide Sort, UidLe, RecordLe, CanonicalRecords;
    var sorted := Sort(snapshot, RecordLe);
    r := [];
    Empty(Uid("", ""));
    for i := 0 to |sorted|
      invariant r == CanonicalRecords(sorted[..i])
    {
      assert sorted[..i + 1] == sorted[..i] + [sorted[i]];
      RecordsOneMore(sorted[..i], sorted[i]);
      var parents := Sort(sorted[i].parents, UidLe);
      r := r + [EntityRecord(sorted[i].uid, sorted[i].attrs, parents)];
    }
    assert sorted[..|sorted|] == sorted;
  }

  // ---- What it forgets ----

  /** The records with this UID, in the snapshot's own order. */
  function With(s: seq<EntityRecord>, k: Uid): seq<EntityRecord> {
    if s == [] then [] else With(s[..|s| - 1], k) + if s[|s| - 1].uid == k then [s[|s| - 1]] else []
  }

  lemma WithOneMore(s: seq<EntityRecord>, x: EntityRecord, k: Uid)
    ensures With(s + [x], k) == With(s, k) + if x.uid == k then [x] else []
  {
    assert (s + [x])[..|s|] == s;
  }

  lemma RecordsOneMore(s: seq<EntityRecord>, x: EntityRecord)
    ensures CanonicalRecords(s + [x]) == CanonicalRecords(s) + [CanonicalRecord(x)]
  {
    assert (s + [x])[..|s|] == s;
  }

  lemma {:induction false} WithIn(s: seq<EntityRecord>, k: Uid, e: EntityRecord)
    ensures e in With(s, k) <==> e in s && e.uid == k
  {
    if s != [] {
      WithIn(s[..|s| - 1], k, e);
      assert s == s[..|s| - 1] + [s[|s| - 1]];
    }
  }

  lemma LastIsAbove(p: seq<Uid>, q: seq<Uid>)
    requires p != [] && q != [] && Ascending(q, UidLe) && multiset(p) == multiset(q)
    ensures UidLe(p[|p| - 1], q[|q| - 1])
  {
    UidOrder();
    hide UidLe;
    SameElements(p, q);
    var a := p[|p| - 1];
    assert a in p;
    var i :| 0 <= i < |q| && q[i] == a;
  }

  lemma Cancel(x: multiset<Uid>, y: multiset<Uid>, a: Uid)
    requires x + multiset{a} == y + multiset{a}
    ensures x == y
  {
    forall u
      ensures x[u] == y[u]
    {
      assert (x + multiset{a})[u] == (y + multiset{a})[u];
    }
  }

  lemma {:induction false} SortedBySame(p: seq<Uid>, q: seq<Uid>)
    requires Ascending(p, UidLe) && Ascending(q, UidLe) && multiset(p) == multiset(q)
    ensures p == q
  {
    hide UidLe;
    assert |p| == |q| by {
      assert |multiset(p)| == |multiset(q)|;
    }
    if p != [] {
      UidOrder();
      LastIsAbove(p, q);
      LastIsAbove(q, p);
      var p', q', a := p[..|p| - 1], q[..|q| - 1], p[|p| - 1];
      assert p == p' + [a] && q == q' + [a];
      assert multiset(p') + multiset{a} == multiset(q') + multiset{a};
      Cancel(multiset(p'), multiset(q'), a);
      SortedBySame(p', q');
    }
  }

  /** Sorted parent lists agree exactly when the lists have the same parents, each as often. */
  lemma ParentsExactly(p: seq<Uid>, q: seq<Uid>)
    ensures Sort(p, UidLe) == Sort(q, UidLe) <==> multiset(p) == multiset(q)
  {
    UidOrder();
    SortAscends(p, UidLe);
    SortAscends(q, UidLe);
    if multiset(p) == multiset(q) {
      SortedBySame(Sort(p, UidLe), Sort(q, UidLe));
    }
  }

  lemma {:induction false} InsertKeepsGroups(s: seq<EntityRecord>, x: EntityRecord, k: Uid)
    ensures With(Insert(s, x, RecordLe), k) == With(s, k) + if x.uid == k then [x] else []
  {
    UidOrder();
    hide UidLe, With;
    if s == [] || RecordLe(s[|s| - 1], x) {
      WithOneMore(s, x, k);
    } else {
      var t, last := s[..|s| - 1], s[|s| - 1];
      InsertKeepsGroups(t, x, k);
      assert last.uid != x.uid;
      assert s == t + [last];
      WithOneMore(t, last, k);
      WithOneMore(Insert(t, x, RecordLe), last, k);
    }
  }

  /** The sort is stable: records with the same UID keep their order. */
  lemma {:induction false} SortKeepsGroups(s: seq<EntityRecord>, k: Uid)
    ensures With(Sort(s, RecordLe), k) == With(s, k)
  {
    if s != [] {
      SortKeepsGroups(s[..|s| - 1], k);
      InsertKeepsGroups(Sort(s[..|s| - 1], RecordLe), s[|s| - 1], k);
    }
  }

  lemma Empty(k: Uid)
    ensures With([], k) == [] && CanonicalRecords([]) == []
  {
  }

  lemma {:induction false} RecordsKeepGroups(s: seq<EntityRecord>, k: Uid)
    ensures With(CanonicalRecords(s), k) == CanonicalRecords(With(s, k))
  {
    hide With, CanonicalRecords, Sort;
    if s == [] {
      Empty(k);
    } else {
      var t, last := s[..|s| - 1], s[|s| - 1];
      RecordsKeepGroups(t, k);
      assert s == t + [last];
      RecordsOneMore(t, last);
      WithOneMore(t, last, k);
      WithOneMore(CanonicalRecords(t), CanonicalRecord(last), k);
      if last.uid == k {
        RecordsOneMore(With(t, k), last);
      }
    }
  }

  lemma RecordsAscend(s: seq<EntityRecord>)
    requires Ascending(s, RecordLe)
    ensures Ascending(CanonicalRecords(s), RecordLe)
  {
    hide UidLe, Sort, CanonicalRecords;
    var r := CanonicalRecords(s);
    forall i, j | 0 <= i < j < |r|
      ensures RecordLe(r[i], r[j])
    {
      assert RecordLe(s[i], s[j]);
    }
  }

  ghost predicate SameGroups(s: seq<EntityRecord>, t: seq<EntityRecord>) {
    forall k :: With(s, k) == With(t, k)
  }

  lemma LastInBoth(s: seq<EntityRecord>, t: seq<EntityRecord>)
    requires s != [] && Ascending(t, RecordLe) && SameGroups(s, t)
    ensures t != [] && RecordLe(s[|s| - 1], t[|t| - 1])
  {
    var a := s[|s| - 1];
    WithIn(s, a.uid, a);
    WithIn(t, a.uid, a);
    var i :| 0 <= i < |t| && t[i] == a;
    UidOrder();
    hide UidLe;
  }

  lemma Dropped(s: seq<EntityRecord>, t: seq<EntityRecord>, a: EntityRecord, b: EntityRecord)
    requires SameGroups(s + [a], t + [b]) && a.uid == b.uid
    ensures a == b && SameGroups(s, t)
  {
    hide With;
    forall k
      ensures With(s, k) == With(t, k)
      ensures k == a.uid ==> a == b
    {
      WithOneMore(s, a, k);
      WithOneMore(t, b, k);
      var v, w := With(s, k), With(t, k);
      assert With(s + [a], k) == With(t + [b], k);
      if k == a.uid {
        assert v + [a] == w + [b];
        assert |v| == |w| && (v + [a])[|v|] == (w + [b])[|w|];
        assert v == (v + [a])[..|v|] && w == (w + [b])[..|w|];
        assert v == w;
      } else {
        assert v + [] == v && w + [] == w;
      }
    }
    assert With(s, a.uid) == With(t, a.uid);
  }

  /** A list that ascends by UID is determined by its groups. */
  lemma {:induction false} GroupsDetermine(s: seq<EntityRecord>, t: seq<EntityRecord>)
    requires Ascending(s, RecordLe) && Ascending(t, RecordLe) && SameGroups(s, t)
    ensures s == t
  {
    if s == [] {
      if t != [] {
        WithIn(t, t[0].uid, t[0]);
        WithIn(s, t[0].uid, t[0]);
        assert false;
      }
    } else {
      LastInBoth(s, t);
      LastInBoth(t, s);
      UidOrder();
      var s', t', a, b := s[..|s| - 1], t[..|t| - 1], s[|s| - 1], t[|t| - 1];
      assert s == s' + [a] && t == t' + [b] && a.uid == b.uid;
      hide With, UidLe, SameGroups;
      Dropped(s', t', a, b);
      GroupsDetermine(s', t');
    }
  }

  lemma CanonicalAscends(a: seq<EntityRecord>)
    ensures Ascending(Canonical(a), RecordLe)
    ensures forall k :: With(Canonical(a), k) == CanonicalRecords(With(a, k))
  {
    UidOrder();
    SortAscends(a, RecordLe);
    RecordsAscend(Sort(a, RecordLe));
    hide UidLe, RecordLe, With, CanonicalRecords, Sort;
    forall k
      ensures With(Canonical(a), k) == CanonicalRecords(With(a, k))
    {
      RecordsKeepGroups(Sort(a, RecordLe), k);
      SortKeepsGroups(a, k);
    }
  }

  /** UID by UID the same records in the same order, up to the order of their parents. */
  ghost predicate SameRecords(a: seq<EntityRecord>, b: seq<EntityRecord>) {
    forall k :: CanonicalRecords(With(a, k)) == CanonicalRecords(With(b, k))
  }

  /** For any two snapshots: the canonical forms are equal exactly when, UID by UID, the records are. */
  lemma CanonicalExactly(a: seq<EntityRecord>, b: seq<EntityRecord>)
    ensures Canonical(a) == Canonical(b) <==> SameRecords(a, b)
  {
    hide Canonical, With, CanonicalRecords, RecordLe;
    CanonicalAscends(a);
    CanonicalAscends(b);
    if Canonical(a) == Canonical(b) {
      forall k
        ensures CanonicalRecords(With(a, k)) == CanonicalRecords(With(b, k))
      {
        assert With(Canonical(a), k) == With(Canonical(b), k);
      }
    } else if SameRecords(a, b) {
      forall k
        ensures With(Canonical(a), k) == With(Canonical(b), k)
      {
        assert CanonicalRecords(With(a, k)) == CanonicalRecords(With(b, k));
      }
      GroupsDetermine(Canonical(a), Canonical(b));
    }
  }

  // ---- Distinct UIDs, and repeated ones ----

  predicate DistinctUids(s: seq<EntityRecord>) {
    forall i, j :: 0 <= i < j < |s| ==> s[i].uid != s[j].uid
  }

  predicate Matches(e: EntityRecord, f: EntityRecord) {
    e.uid == f.uid && e.attrs == f.attrs && multiset(e.parents) == multiset(f.parents)
  }

  /** The same records in some order, each with the same parents in some order. */
  predicate SameUpToOrder(a: seq<EntityRecord>, b: seq<EntityRecord>) {
    && (forall e :: e in a ==> exists f :: f in b && Matches(e, f))
    && (forall f :: f in b ==> exists e :: e in a && Matches(e, f))
  }

  lemma MatchExactly(e: EntityRecord, f: EntityRecord)
    ensures CanonicalRecord(e) == CanonicalRecord(f) <==> Matches(e, f)
  {
    ParentsExactly(e.parents, f.parents);
  }

  /** With distinct UIDs a group has at most the one record. */
  lemma {:induction false} SingleGroup(s: seq<EntityRecord>, k: Uid)
    requires DistinctUids(s)
    ensures |With(s, k)| <= 1
    ensures forall e :: e in s && e.uid == k ==> With(s, k) == [e]
    ensures (forall e :: e in s ==> e.uid != k) ==> With(s, k) == []
  {
    if s != [] {
      var t, last := s[..|s| - 1], s[|s| - 1];
      SingleGroup(t, k);
      assert s == t + [last];
      if last.uid == k {
        assert forall e :: e in t ==> e.uid != k;
      }
    }
  }

  lemma CanonicalSingle(e: EntityRecord)
    ensures CanonicalRecords([e]) == [CanonicalRecord(e)]
  {
  }

  lemma OneMatch(a: seq<EntityRecord>, b: seq<EntityRecord>, e: EntityRecord)
    requires DistinctUids(a) && DistinctUids(b) && e in a
    ensures CanonicalRecords(With(a, e.uid)) == CanonicalRecords(With(b, e.uid)) <==> exists f :: f in b && Matches(e, f)
  {
    SingleGroup(a, e.uid);
    SingleGroup(b, e.uid);
    hide With, CanonicalRecords, CanonicalRecord;
    CanonicalSingle(e);
    var w := With(b, e.uid);
    if w == [] {
      Empty(e.uid);
      forall f | f in b
        ensures !Matches(e, f)
      {
        assert f.uid == e.uid ==> w == [f];
      }
    } else {
      assert w == [w[0]];
      WithIn(b, e.uid, w[0]);
      CanonicalSingle(w[0]);
      MatchExactly(e, w[0]);
      if CanonicalRecord(e) == CanonicalRecord(w[0]) {
        assert w[0] in b && Matches(e, w[0]);
      } else {
        forall f | f in b
          ensures !Matches(e, f)
        {
          assert f.uid == e.uid ==> w == [f];
        }
      }
    }
  }

  /** With distinct UIDs, equal canonical forms mean the same records up to reordering, and only those. */
  lemma CanonicalWhenDistinct(a: seq<EntityRecord>, b: seq<EntityRecord>)
    requires DistinctUids(a) && DistinctUids(b)
    ensures Canonical(a) == Canonical(b) <==> SameUpToOrder(a, b)
  {
    hide Canonical, With, CanonicalRecords, DistinctUids;
    CanonicalExactly(a, b);
    forall e | e in a
      ensures CanonicalRecords(With(a, e.uid)) == CanonicalRecords(With(b, e.uid)) <==> exists f :: f in b && Matches(e, f)
    {
      OneMatch(a, b, e);
    }
    forall f | f in b
      ensures CanonicalRecords(With(a, f.uid)) == CanonicalRecords(With(b, f.uid)) <==> exists e :: e in a && Matches(e, f)
    {
      OneMatch(b, a, f);
      assert forall e :: Matches(f, e) <==> Matches(e, f);
    }
    forall k
      ensures (forall e :: e in a ==> e.uid != k) && (forall f :: f in b ==> f.uid != k) ==>
        CanonicalRecords(With(a, k)) == CanonicalRecords(With(b, k))
    {
      if (forall e :: e in a ==> e.uid != k) && (forall f :: f in b ==> f.uid != k) {
        NoneWith(a, k);
        NoneWith(b, k);
      }
    }
  }

  lemma NoneWith(s: seq<EntityRecord>, k: Uid)
    requires forall e :: e in s ==> e.uid != k
    ensures With(s, k) == []
  {
    var w := With(s, k);
    if w != [] {
      WithIn(s, k, w[0]);
      assert false;
    }
  }

  /** Records that share a UID agree up to the order of their parents. */
  predicate RepeatsAgree(a: seq<EntityRecord>) {
    forall e, f :: e in a && f in a && e.uid == f.uid ==> Matches(e, f)
  }

  lemma {:induction false} WithCounts(s: seq<EntityRecord>, k: Uid, e: EntityRecord)
    ensures multiset(With(s, k))[e] == if e.uid == k then multiset(s)[e] else 0
  {
    if s != [] {
      WithCounts(s[..|s| - 1], k, e);
      assert s == s[..|s| - 1] + [s[|s| - 1]];
    }
  }

  lemma {:induction false} FirstStaysFirst(e: EntityRecord, s: seq<EntityRecord>)
    ensures With([e] + s, e.uid) != [] && With([e] + s, e.uid)[0] == e
  {
    if s == [] {
      WithOneMore([], e, e.uid);
      assert [] + [e] == [e] + s;
    } else {
      FirstStaysFirst(e, s[..|s| - 1]);
      WithOneMore([e] + s[..|s| - 1], s[|s| - 1], e.uid);
      assert ([e] + s[..|s| - 1]) + [s[|s| - 1]] == [e] + s;
      hide With;
    }
  }

  function ToFront(a: seq<EntityRecord>, i: nat): (b: seq<EntityRecord>)
    requires i < |a|
    ensures multiset(b) == multiset(a)
  {
    assert a == a[..i] + [a[i]] + a[i + 1..];
    [a[i]] + (a[..i] + a[i + 1..])
  }

  lemma AgreeingGroups(a: seq<EntityRecord>, b: seq<EntityRecord>, k: Uid)
    requires multiset(a) == multiset(b) && RepeatsAgree(a)
    ensures CanonicalRecords(With(a, k)) == CanonicalRecords(With(b, k))
  {
    hide With, CanonicalRecords, CanonicalRecord, Matches;
    var v, w := With(a, k), With(b, k);
    assert multiset(v) == multiset(w) by {
      forall e
        ensures multiset(v)[e] == multiset(w)[e]
      {
        WithCounts(a, k, e);
        WithCounts(b, k, e);
      }
    }
    assert |v| == |w| by {
      assert |multiset(v)| == |multiset(w)|;
    }
    SameElements(a, b);
    forall i | 0 <= i < |v|
      ensures CanonicalRecord(v[i]) == CanonicalRecord(w[i])
    {
      WithIn(a, k, v[i]);
      WithIn(b, k, w[i]);
      MatchExactly(v[i], w[i]);
    }
  }

  /** The canonical form ignores the order of the entities exactly when the records that share a UID agree. */
  lemma OrderIgnoredExactly(a: seq<EntityRecord>)
    ensures (forall b :: multiset(b) == multiset(a) ==> Canonical(b) == Canonical(a)) <==> RepeatsAgree(a)
  {
    hide With, CanonicalRecords, CanonicalRecord, Canonical, Matches;
    if RepeatsAgree(a) {
      forall b | multiset(b) == multiset(a)
        ensures Canonical(b) == Canonical(a)
      {
        forall k
          ensures CanonicalRecords(With(a, k)) == CanonicalRecords(With(b, k))
        {
          AgreeingGroups(a, b, k);
        }
        CanonicalExactly(b, a);
      }
    }
    if forall b :: multiset(b) == multiset(a) ==> Canonical(b) == Canonical(a) {
      forall e, f | e in a && f in a && e.uid == f.uid
        ensures Matches(e, f)
      {
        var i :| 0 <= i < |a| && a[i] == e;
        var j :| 0 <= j < |a| && a[j] == f;
        var b, c := ToFront(a, i), ToFront(a, j);
        FirstStaysFirst(e, a[..i] + a[i + 1..]);
        FirstStaysFirst(f, a[..j] + a[j + 1..]);
        CanonicalExactly(b, c);
        assert CanonicalRecords(With(b, e.uid)) == CanonicalRecords(With(c, e.uid));
        assert CanonicalRecords(With(b, e.uid))[0] == CanonicalRecord(e);
        MatchExactly(e, f);
      }
    }
  }

  /** One identifier comes before the other, or is the same: by type name, and by id within a type. */
  predicate InOrder(a: Uid, b: Uid) {
    TextLe(a.entityType, b.entityType) && (a.entityType == b.entityType ==> TextLe(a.entityId, b.entityId))
  }

  /** The canonical form is in the order of the identifiers, and so are the parents of each record. */
  lemma CanonicalInOrder(s: seq<EntityRecord>)
    ensures var r := Canonical(s);
      && |r| == |s|
      && (forall i, j :: 0 <= i < j < |r| ==> InOrder(r[i].uid, r[j].uid))
      && (forall i, j, k :: 0 <= i < |r| && 0 <= j < k < |r[i].parents| ==> InOrder(r[i].parents[j], r[i].parents[k]))
  {
    UidOrder();
    SortAscends(s, RecordLe);
    var sorted, r := Sort(s, RecordLe), Canonical(s);
    assert |sorted| == |s| by {
      assert |multiset(sorted)| == |multiset(s)|;
    }
    hide Sort, TextLe;
    forall i, j | 0 <= i < j < |r|
      ensures InOrder(r[i].uid, r[j].uid)
    {
      assert RecordLe(sorted[i], sorted[j]);
      UidLeMeans(r[i].uid, r[j].uid);
    }
    forall i, j, k | 0 <= i < |r| && 0 <= j < k < |r[i].parents|
      ensures InOrder(r[i].parents[j], r[i].parents[k])
    {
      SortAscends(sorted[i].parents, UidLe);
      UidLeMeans(r[i].parents[j], r[i].parents[k]);
    }
  }

  lemma UidLeMeans(a: Uid, b: Uid)
    ensures UidLe(a, b) ==> InOrder(a, b)
  {
    TextOrder(a.entityType, b.entityType, a.entityType);
  }
}
