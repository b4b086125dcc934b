/** The part of the Firestore query API the chat history uses: a collection is a sequence
    of records, and `where`, `order_by`, `limit` and `offset` have their usual meaning.
    Records are ordered by timestamp; records with equal timestamps are ordered by their
    document id, as Firestore orders ties by document name. */
module FirestoreQuery {

  /** One stored chat turn: `{user_id, user, model, timestamp}` and the id of its document. */
  datatype Record = Record(id: nat, userId: string, user: string, model: string, timestamp: int)

  /** The query order: timestamp first, then document id. */
  predicate KeyLe(a: Record, b: Record) {
    a.timestamp < b.timestamp || (a.timestamp == b.timestamp && a.id <= b.id)
  }

  predicate KeyLt(a: Record, b: Record) {
    !KeyLe(b, a)
  }

  predicate Ascending(rs: seq<Record>) {
    forall i, j :: 0 <= i < j < |rs| ==> KeyLe(rs[i], rs[j])
  }

  predicate Descending(rs: seq<Record>) {
    forall i, j :: 0 <= i < j < |rs| ==> KeyLe(rs[j], rs[i])
  }

  /** The records satisfying `keep`, in their original order. */
  function Keep(rs: seq<Record>, keep: Record -> bool): (r: seq<Record>)
    ensures forall x :: x in r <==> x in rs && keep(x)
    ensures |r| <= |rs|
  {
    if rs == [] then []
    else
      var tail := Keep(rs[1..], keep);
      assert rs == [rs[0]] + rs[1..];
      if keep(rs[0]) then [rs[0]] + tail else tail
  }

  /** Each record passing the filter keeps all its copies; the others lose all of them. */
  lemma {:induction false} KeepCount(rs: seq<Record>, keep: Record -> bool)
    ensures forall x :: multiset(Keep(rs, keep))[x] == if keep(x) then multiset(rs)[x] else 0
    decreases |rs|
  {
    if rs != [] {
      KeepCount(rs[1..], keep);
      assert rs == [rs[0]] + rs[1..];
    }
  }

  /** The filter `user_id == u`. */
  function OwnedBy(u: string): Record -> bool {
    (x: Record) => x.userId == u
  }

  /** `.where('user_id', '==', u)`. */
  function Where(rs: seq<Record>, u: string): (r: seq<Record>)
    ensures forall x :: x in r <==> x in rs && x.userId == u
  {
    Keep(rs, OwnedBy(u))
  }

  /** Puts `x` into an ascending sequence at its place. */
  function Insert(x: Record, rs: seq<Record>): (r: seq<Record>)
    requires Ascending(rs)
    ensures Ascending(r)
    ensures multiset(r) == multiset(rs) + multiset{x}
  {
    if rs == [] then [x]
    else if KeyLe(x, rs[0]) then [x] + rs
    else
      var tail := Insert(x, rs[1..]);
      InsertStep(x, rs, tail);
      assert rs == [rs[0]] + rs[1..];
      [rs[0]] + tail
  }

  /** Putting the head of `rs` in front of the insertion into its tail keeps the order. */
  lemma InsertStep(x: Record, rs: seq<Record>, tail: seq<Record>)
    requires Ascending(rs) && rs != [] && !KeyLe(x, rs[0])
    requires Ascending(tail) && multiset(tail) == multiset(rs[1..]) + multiset{x}
    ensures Ascending([rs[0]] + tail)
  {
    forall j | 0 <= j < |tail| ensures KeyLe(rs[0], tail[j]) {
      assert tail[j] in multiset(tail);
      if tail[j] != x {
        assert tail[j] in rs[1..];
      }
    }
  }

  /** `.order_by('timestamp')`: the records in ascending order. */
  function OrderByAsc(rs: seq<Record>): (r: seq<Record>)
    ensures Ascending(r)
    ensures multiset(r) == multiset(rs)
  {
    if rs == [] then []
    else
      assert rs == [rs[0]] + rs[1..];
      Insert(rs[0], OrderByAsc(rs[1..]))
  }

  /** The sequence back to front, as Python's `xs[::-1]`. */
  function Reverse<T>(rs: seq<T>): (r: seq<T>)
    ensures |r| == |rs|
    ensures forall i :: 0 <= i < |rs| ==> r[i] == rs[|rs| - 1 - i]
  {
    seq(|rs|, i requires 0 <= i < |rs| => rs[|rs| - 1 - i])
  }

  /** `.order_by('timestamp', direction=DESCENDING)`: the ascending order turned round,
      ties included. */
  function OrderByDesc(rs: seq<Record>): (r: seq<Record>)
    ensures Descending(r)
    ensures multiset(r) == multiset(rs)
  {
    var a := OrderByAsc(rs);
    ReverseMultiset(a);
    Reverse(a)
  }

  function Min(a: nat, b: nat): nat {
    if a <= b then a else b
  }

  /** `.limit(n)`. */
  function Limit(rs: seq<Record>, n: nat): (r: seq<Record>)
    ensures |r| == Min(n, |rs|)
    ensures forall i :: 0 <= i < |r| ==> r[i] == rs[i]
  {
    rs[..Min(n, |rs|)]
  }

  /** `.offset(n)`. */
  function Offset(rs: seq<Record>, n: nat): (r: seq<Record>)
    ensures |r| == |rs| - Min(n, |rs|)
    ensures forall i :: 0 <= i < |r| ==> r[i] == rs[Min(n, |rs|) + i]
  {
    rs[Min(n, |rs|)..]
  }

  lemma LimitOffset(rs: seq<Record>, n: nat)
    ensures Limit(rs, n) + Offset(rs, n) == rs
  {
  }

  lemma {:induction false} ReverseMultiset<T>(rs: seq<T>)
    ensures multiset(Reverse(rs)) == multiset(rs)
    decreases |rs|
  {
    if rs != [] {
      var n := |rs| - 1;
      ReverseMultiset(rs[..n]);
      assert Reverse(rs) == [rs[n]] + Reverse(rs[..n]);
      assert rs == rs[..n] + [rs[n]];
    }
  }

  /** The first `n` of the descending order are the last `n` of the ascending order. */
  lemma LimitDesc(rs: seq<Record>, n: nat)
    ensures var a := OrderByAsc(rs);
            Reverse(Limit(OrderByDesc(rs), n)) == a[|a| - Min(n, |a|)..]
  {
  }

  /** A sequence whose multiset is bounded by another's is no longer. */
  lemma MultisetLength(a: seq<Record>, b: seq<Record>)
    requires multiset(a) <= multiset(b)
    ensures |a| <= |b|
  {
    var d := multiset(b) - multiset(a);
    assert multiset(b) == multiset(a) + d;
    assert |multiset(b)| == |multiset(a)| + |d|;
  }

  /** `Keep` distributes over concatenation. */
  lemma {:induction false} KeepAppend(a: seq<Record>, b: seq<Record>, keep: Record -> bool)
    ensures Keep(a + b, keep) == Keep(a, keep) + Keep(b, keep)
    decreases |a|
  {
    if a != [] {
      KeepAppend(a[1..], b, keep);
      assert (a + b)[0] == a[0] && (a + b)[1..] == a[1..] + b;
      var head := if keep(a[0]) then [a[0]] else [];
      assert Keep(a + b, keep) == head + Keep(a[1..] + b, keep);
      assert Keep(a, keep) == head + Keep(a[1..], keep);
    } else {
      assert a + b == b;
    }
  }

  /** Keeping records that all pass leaves the sequence as it is. */
  lemma {:induction false} KeepAll(rs: seq<Record>, keep: Record -> bool)
    requires forall x :: x in rs ==> keep(x)
    ensures Keep(rs, keep) == rs
    decreases |rs|
  {
    if rs != [] {
      KeepAll(rs[1..], keep);
    }
  }

  /** Filtering by a weaker condition first does not change a stronger filter. */
  lemma {:induction false} KeepWeakerFirst(rs: seq<Record>, weak: Record -> bool, strong: Record -> bool)
    requires forall x :: strong(x) ==> weak(x)
    ensures Keep(Keep(rs, weak), strong) == Keep(rs, strong)
    decreases |rs|
  {
    if rs != [] {
      KeepWeakerFirst(rs[1..], weak, strong);
    }
  }

  /** Document ids are unique within a collection. */
  predicate UniqueIds(rs: seq<Record>) {
    forall i, j :: 0 <= i < j < |rs| ==> rs[i].id != rs[j].id
  }

  /** With unique ids no record is stored twice. */
  lemma {:induction false} UniqueCountedOnce(rs: seq<Record>)
    requires UniqueIds(rs)
    ensures forall x :: multiset(rs)[x] <= 1
    decreases |rs|
  {
    if rs != [] {
      var tail := rs[1..];
      assert forall i :: 0 <= i < |tail| ==> tail[i] == rs[i + 1];
      UniqueCountedOnce(tail);
      assert rs == [rs[0]] + tail;
      assert rs[0] !in tail;
    }
  }

  /** Filtering keeps ids unique. */
  lemma {:induction false} KeepUnique(rs: seq<Record>, keep: Record -> bool)
    requires UniqueIds(rs)
    ensures UniqueIds(Keep(rs, keep))
    decreases |rs|
  {
    if rs != [] {
      var tail := rs[1..];
      assert forall i :: 0 <= i < |tail| ==> tail[i] == rs[i + 1];
      KeepUnique(tail, keep);
      var k := Keep(tail, keep);
      forall j | 0 <= j < |k| ensures k[j].id != rs[0].id {
        assert k[j] in tail;
      }
    }
  }

  /** A value found at two positions is counted at least twice. */
  lemma TwiceCounted(rs: seq<Record>, i: nat, j: nat)
    requires i < j < |rs| && rs[i] == rs[j]
    ensures multiset(rs)[rs[j]] >= 2
  {
    assert rs == rs[..j] + [rs[j]] + rs[j + 1..];
    assert rs[..j][i] == rs[j];
  }
}
