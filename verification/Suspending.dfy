/** Suspending all threads but one (single_privileged_thread): the loops over the thread table walk each
    bucket with tr, but suspend the bucket's first thread each time. */
module Suspending {

  datatype ThreadRecord = ThreadRecord(id: nat, underControl: bool)

  /** The buckets of the thread table, each a chain of records. */
  type Table = seq<seq<ThreadRecord>>

  /** The threads suspended while the first n records of a bucket are walked. */
  function BucketCalls(b: seq<ThreadRecord>, n: nat): seq<nat>
    requires n <= |b|
  {
    if n == 0 then [] else BucketCalls(b, n - 1) + if b[n - 1].underControl then [b[0].id] else []
  }

  function Calls(table: Table, n: nat): seq<nat>
    requires n <= |table|
  {
    if n == 0 then [] else Calls(table, n - 1) + BucketCalls(table[n - 1], |table[n - 1]|)
  }

  /** The loops of dynamorio_unprotect; those of dynamorio_protect resume the same threads. */
  method SuspendThreads(table: Table) returns (calls: seq<nat>, numSuspended: nat)
    ensures calls == Calls(table, |table|) && numSuspended == |calls|
  {
    calls, numSuspended := [], 0;
    var i := 0;
    while i < |table|
      invariant i <= |table| && calls == Calls(table, i) && numSuspended == |calls|
    {
      var j := 0;
      ghost var before := calls;
      while j < |table[i]|
        invariant j <= |table[i]| && calls == before + BucketCalls(table[i], j) && numSuspended == |calls|
      {
        if table[i][j].underControl {
          calls, numSuspended := calls + [table[i][0].id], numSuspended + 1;
        }
        j := j + 1;
      }
      i := i + 1;
    }
  }

  // ----- what was meant

  function BucketControlled(b: seq<ThreadRecord>, n: nat): seq<nat>
    requires n <= |b|
  {
    if n == 0 then [] else BucketControlled(b, n - 1) + if b[n - 1].underControl then [b[n - 1].id] else []
  }

  /** The threads under control, each once. */
  function Controlled(table: Table, n: nat): seq<nat>
    requires n <= |table|
  {
    if n == 0 then [] else Controlled(table, n - 1) + BucketControlled(table[n - 1], |table[n - 1]|)
  }

  ghost predicate IsRecord(table: Table, i: nat, j: nat) { i < |table| && j < |table[i]| }

  /** No two records have the same thread. */
  ghost predicate Distinct(table: Table) {
    forall i: nat, j: nat, i': nat, j': nat ::
      IsRecord(table, i, j) && IsRecord(table, i', j') && table[i][j].id == table[i'][j'].id ==> i == i' && j == j'
  }

  /** In each bucket only the first thread may be under control. */
  ghost predicate OnlyHeads(table: Table) {
    forall i: nat, j: nat :: IsRecord(table, i, j) && table[i][j].underControl ==> j == 0
  }

  lemma {:induction false} BucketSame(b: seq<ThreadRecord>, n: nat)
    requires n <= |b| && forall j :: 0 < j < n ==> !b[j].underControl
    ensures BucketCalls(b, n) == BucketControlled(b, n)
  {
    if n > 0 { BucketSame(b, n - 1); }
  }

  lemma {:induction false} HeadsSame(table: Table, n: nat)
    requires n <= |table| && OnlyHeads(table)
    ensures Calls(table, n) == Controlled(table, n)
  {
    if n > 0 {
      HeadsSame(table, n - 1);
      var b := table[n - 1];
      forall j | 0 < j < |b| ensures !b[j].underControl { assert IsRecord(table, n - 1, j); }
      BucketSame(b, |b|);
    }
  }

  /** Only first threads of buckets are ever suspended. */
  lemma {:induction false} BucketHead(b: seq<ThreadRecord>, n: nat, id: nat)
    requires n <= |b| && id in BucketCalls(b, n)
    ensures n > 0 && id == b[0].id
  {
    if n > 1 && id in BucketCalls(b, n - 1) { BucketHead(b, n - 1, id); }
  }

  lemma {:induction false} CalledHead(table: Table, n: nat, id: nat) returns (i: nat)
    requires n <= |table| && id in Calls(table, n)
    ensures IsRecord(table, i, 0) && table[i][0].id == id
  {
    if id in Calls(table, n - 1) {
      i := CalledHead(table, n - 1, id);
    } else {
      i := n - 1;
      BucketHead(table[i], |table[i]|, id);
    }
  }

  lemma {:induction false} BucketMember(b: seq<ThreadRecord>, n: nat, j: nat)
    requires j < n <= |b| && b[j].underControl
    ensures b[j].id in BucketControlled(b, n)
  {
    if j < n - 1 { BucketMember(b, n - 1, j); }
  }

  lemma {:induction false} Member(table: Table, n: nat, i: nat, j: nat)
    requires i < n <= |table| && IsRecord(table, i, j) && table[i][j].underControl
    ensures table[i][j].id in Controlled(table, n)
  {
    if i < n - 1 { Member(table, n - 1, i, j); } else { BucketMember(table[i], |table[i]|, j); }
  }

  lemma {:induction false} CountsAgree(table: Table, n: nat)
    requires n <= |table|
    ensures |Calls(table, n)| == |Controlled(table, n)|
  {
    hide BucketCalls, BucketControlled;
    if n > 0 {
      CountsAgree(table, n - 1);
      BucketCounts(table[n - 1], |table[n - 1]|);
    }
  }

  lemma {:induction false} BucketCounts(b: seq<ThreadRecord>, n: nat)
    requires n <= |b|
    ensures |BucketCalls(b, n)| == |BucketControlled(b, n)|
  {
    if n > 0 { BucketCounts(b, n - 1); }
  }

  /** As many suspensions are made, and counted, as there are threads under control; but each of them is
      suspended exactly once, and nobody else, exactly when in each bucket only the first thread is under
      control. */
  lemma SuspendsEachOnce(table: Table)
    requires Distinct(table)
    ensures |Calls(table, |table|)| == |Controlled(table, |table|)|
    ensures multiset(Calls(table, |table|)) == multiset(Controlled(table, |table|)) <==> OnlyHeads(table)
  {
    CountsAgree(table, |table|);
    if OnlyHeads(table) {
      HeadsSame(table, |table|);
    } else {
      var i: nat, j: nat :| IsRecord(table, i, j) && table[i][j].underControl && j > 0;
      NeverSuspended(table, i, j);
      Member(table, |table|, i, j);
      assert table[i][j].id in multiset(Controlled(table, |table|));
    }
  }

  /** A thread that is not the first of its bucket goes on running. */
  lemma NeverSuspended(table: Table, i: nat, j: nat)
    requires Distinct(table) && IsRecord(table, i, j) && j > 0
    ensures table[i][j].id !in Calls(table, |table|)
  {
    if table[i][j].id in Calls(table, |table|) {
      var k := CalledHead(table, |table|, table[i][j].id);
      assert false;
    }
  }

  /** Two threads in one bucket: the first is suspended twice, the second not at all. */
  lemma TwoInOneBucket(a: nat, b: nat)
    requires a != b
    ensures Calls([[ThreadRecord(a, true), ThreadRecord(b, true)]], 1) == [a, a]
  {
    var c := [ThreadRecord(a, true), ThreadRecord(b, true)];
    assert BucketCalls(c, 2) == BucketCalls(c, 1) + [a] && BucketCalls(c, 1) == BucketCalls(c, 0) + [a];
    assert Calls([c], 1) == Calls([c], 0) + BucketCalls(c, 2);
  }
}
