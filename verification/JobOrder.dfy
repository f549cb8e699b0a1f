/** ORDER BY created_at, rowid: the query of `claim_next` returns exactly the matching rows, each once, in order,
    and a list with that property is unique. */
module JobOrder {
  import opened JobTables

  ghost predicate InBounds(jobs: seq<Row>, ids: seq<nat>) {
    forall k :: 0 <= k < |ids| ==> ids[k] < |jobs|
  }

  ghost predicate Ordered(jobs: seq<Row>, ids: seq<nat>)
    requires InBounds(jobs, ids)
  {
    forall i, j :: 0 <= i < j < |ids| ==> Earlier(jobs, ids[i], ids[j])
  }

  lemma {:induction false} PlaceExact(jobs: seq<Row>, ids: seq<nat>, i: nat)
    requires i < |jobs| && InBounds(jobs, ids) && Ordered(jobs, ids) && i !in ids
    ensures InBounds(jobs, Place(jobs, ids, i)) && Ordered(jobs, Place(jobs, ids, i))
    ensures forall k :: k in Place(jobs, ids, i) <==> k == i || k in ids
  {
    if |ids| == 0 || Earlier(jobs, i, ids[0]) {
      assert Place(jobs, ids, i) == [i] + ids;
    } else {
      PlaceExact(jobs, ids[1..], i);
      assert forall k :: k in ids <==> k == ids[0] || k in ids[1..];
      var rest := Place(jobs, ids[1..], i);
      forall k | 0 <= k < |rest| ensures Earlier(jobs, ids[0], rest[k]) {
        assert rest[k] in rest;
        assert ids[0] != i;
      }
      assert Place(jobs, ids, i) == [ids[0]] + rest;
    }
  }

  /** `ids` are the matching rows among the first `n`, in order. */
  ghost predicate Exactly(jobs: seq<Row>, q: Query, n: nat, ids: seq<nat>) {
    && n <= |jobs| && InBounds(jobs, ids) && Ordered(jobs, ids)
    && forall k :: k in ids <==> 0 <= k < n && Picks(q, jobs[k])
  }

  lemma {:induction false} SelectPrefixExact(jobs: seq<Row>, q: Query, n: nat)
    requires n <= |jobs|
    ensures Exactly(jobs, q, n, SelectPrefix(jobs, q, n))
  {
    if n == 0 {
      SelectNone(jobs, q, n);
    } else {
      SelectPrefixExact(jobs, q, n - 1);
      SelectNext(jobs, q, n - 1, SelectPrefix(jobs, q, n - 1), SelectPrefix(jobs, q, n));
    }
  }

  lemma SelectNone(jobs: seq<Row>, q: Query, n: nat)
    requires n == 0
    ensures Exactly(jobs, q, n, SelectPrefix(jobs, q, n))
  {
  }

  lemma SelectNext(jobs: seq<Row>, q: Query, n: nat, ids: seq<nat>, next: seq<nat>)
    requires n < |jobs| && Exactly(jobs, q, n, ids) && next == PickOne(jobs, q, ids, n)
    ensures Exactly(jobs, q, n + 1, next)
  {
    PickNext(jobs, q, ids, n);
  }

  lemma PickNext(jobs: seq<Row>, q: Query, ids: seq<nat>, n: nat)
    requires n < |jobs| && Exactly(jobs, q, n, ids)
    ensures Exactly(jobs, q, n + 1, PickOne(jobs, q, ids, n))
  {
    if Picks(q, jobs[n]) { PlaceExact(jobs, ids, n); }
  }

  lemma SelectExact(jobs: seq<Row>, q: Query)
    ensures Ordered(jobs, Select(jobs, q))
    ensures forall k :: k in Select(jobs, q) <==> 0 <= k < |jobs| && Picks(q, jobs[k])
  {
    SelectPrefixExact(jobs, q, |jobs|);
  }

  lemma NoMembers(ids: seq<nat>)
    ensures (forall k: nat :: k !in ids) ==> ids == []
  {
    if ids != [] { assert ids[0] in ids; }
  }

  /** Order and membership determine the list. */
  lemma {:induction false} OrderedUnique(jobs: seq<Row>, a: seq<nat>, b: seq<nat>)
    requires InBounds(jobs, a) && InBounds(jobs, b) && Ordered(jobs, a) && Ordered(jobs, b)
    requires forall k :: k in a <==> k in b
    ensures a == b
  {
    if |a| == 0 {
      NoMembers(b);
    } else {
      assert a[0] in b;
      assert |b| > 0 && b[0] in a;
      assert a[0] == b[0];
      forall k ensures k in a[1..] <==> k in b[1..] {
        assert k in a <==> k == a[0] || k in a[1..];
        assert k in b <==> k == b[0] || k in b[1..];
        assert a[0] !in a[1..] && b[0] !in b[1..];
      }
      OrderedUnique(jobs, a[1..], b[1..]);
    }
  }
}
