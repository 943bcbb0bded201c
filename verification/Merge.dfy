/** Merging sorted runs with a priority queue that holds the number of the next line of every
    run (`_file_recovery/re_file.cpp`). */
module Merge {
  import opened Sorting

  /** Everything in the runs, however spread over them. */
  function Union<T>(runs: seq<seq<T>>): multiset<T> {
    if runs == [] then multiset{} else Union(runs[..|runs| - 1]) + multiset(runs[|runs| - 1])
  }

  lemma {:induction false} UnionTake<T>(runs: seq<seq<T>>, i: nat)
    requires i < |runs| && runs[i] != []
    ensures Union(runs) == Union(runs[i := runs[i][1..]]) + multiset{runs[i][0]}
  {
    var n := |runs| - 1;
    var runs' := runs[i := runs[i][1..]];
    if i == n {
      assert runs'[..n] == runs[..n];
      assert runs[n] == [runs[n][0]] + runs[n][1..];
    } else {
      UnionTake(runs[..n], i);
      assert runs'[..n] == runs[..n][i := runs[i][1..]];
    }
  }

  lemma {:induction false} UnionEmpty<T>(runs: seq<seq<T>>)
    requires forall i :: 0 <= i < |runs| ==> runs[i] == []
    ensures Union(runs) == multiset{}
  {
    if runs != [] { UnionEmpty(runs[..|runs| - 1]); }
  }

  lemma {:induction false} InUnion<T>(runs: seq<seq<T>>, x: T)
    ensures x in Union(runs) <==> exists i :: 0 <= i < |runs| && x in runs[i]
  {
    if runs != [] {
      var n := |runs| - 1;
      InUnion(runs[..n], x);
      if x in Union(runs[..n]) {
        var i :| 0 <= i < n && x in runs[..n][i];
        assert x in runs[i];
      }
      if i :| 0 <= i < |runs| && x in runs[i] {
        if i < n { assert x in runs[..n][i]; }
      }
    }
  }

  ghost predicate SortedRuns<T>(runs: seq<seq<T>>, key: T -> int) {
    forall i :: 0 <= i < |runs| ==> SortedBy(runs[i], key)
  }

  /** Nothing in the runs comes before `n`. */
  ghost predicate AllFrom<T>(n: int, runs: seq<seq<T>>, key: T -> int) {
    forall i, j :: 0 <= i < |runs| && 0 <= j < |runs[i]| ==> n <= key(runs[i][j])
  }

  // ---------- the queue ----------

  /** The queue holds no run twice, so it is a map from runs to the numbers of their next lines;
      `buf` holds these lines and `fp` what has not been read of each file. */
  datatype Heads<T> = Heads(queue: map<nat, int>, buf: seq<T>, fp: seq<seq<T>>)

  ghost predicate Stands<T>(h: Heads<T>, runs: seq<seq<T>>, key: T -> int) {
    && |h.buf| == |h.fp| == |runs|
    && (forall i :: i in h.queue ==> i < |runs|)
    && forall i :: 0 <= i < |runs| ==> StandsAt(h, runs[i], i, key)
  }

  ghost predicate StandsAt<T>(h: Heads<T>, run: seq<T>, i: nat, key: T -> int)
    requires i < |h.buf| == |h.fp|
  {
    if i in h.queue then run != [] && run == [h.buf[i]] + h.fp[i] && h.queue[i] == key(h.buf[i])
    else run == [] && h.fp[i] == []
  }

  predicate IsTop(queue: map<nat, int>, i: nat) {
    i in queue && forall j :: j in queue ==> queue[i] <= queue[j]
  }

  /** The top of the priority queue; among equal numbers any may come first. */
  method Top(queue: map<nat, int>) returns (i: nat)
    requires queue != map[]
    ensures IsTop(queue, i)
  {
    i :| i in queue;
    var left := queue.Keys - {i};
    while left != {}
      invariant i in queue && left <= queue.Keys
      invariant forall j :: j in queue && j !in left ==> queue[i] <= queue[j]
      decreases |left|
    {
      var j :| j in left;
      if queue[j] < queue[i] { i := j; }
      left := left - {j};
    }
  }

  /** The line at the top of the queue comes before everything else there is. */
  lemma TopFirst<T>(h: Heads<T>, runs: seq<seq<T>>, key: T -> int, i: nat)
    requires Stands(h, runs, key) && SortedRuns(runs, key) && IsTop(h.queue, i)
    ensures i < |runs| && runs[i] != [] && runs[i][0] == h.buf[i] && AllFrom(key(h.buf[i]), runs, key)
  {
    forall k, j | 0 <= k < |runs| && 0 <= j < |runs[k]| ensures key(h.buf[i]) <= key(runs[k][j]) {
      assert StandsAt(h, runs[k], k, key);
      assert runs[k][0] == h.buf[k];
      if j > 0 { assert key(runs[k][0]) <= key(runs[k][j]); }
      assert StandsAt(h, runs[i], i, key);
      assert k in h.queue && h.queue[i] <= h.queue[k];
    }
    assert StandsAt(h, runs[i], i, key);
  }

  /** Reads the first line of every file. */
  method Open<T(0)>(files: seq<seq<T>>, key: T -> int) returns (h: Heads<T>)
    requires forall i :: 0 <= i < |files| ==> files[i] != []
    ensures Stands(h, files, key)
  {
    var queue: map<nat, int>, buf: seq<T>, fp: seq<seq<T>> := map[], [], [];
    for i := 0 to |files|
      invariant |buf| == |fp| == i && forall j :: j in queue <==> 0 <= j < i
      invariant forall j :: 0 <= j < i ==> files[j] == [buf[j]] + fp[j] && queue[j] == key(buf[j])
    {
      buf := buf + [files[i][0]];
      fp := fp + [files[i][1..]];
      queue := queue[i := key(buf[i])];
    }
    h := Heads(queue, buf, fp);
  }

  /** Drops the top, reads on in its file and queues the line read, if there is one. */
  method Next<T>(h: Heads<T>, i: nat, key: T -> int, ghost runs: seq<seq<T>>) returns (h': Heads<T>)
    requires Stands(h, runs, key) && i in h.queue
    ensures i < |runs| && runs[i] != [] && Stands(h', runs[i := runs[i][1..]], key)
  {
    assert StandsAt(h, runs[i], i, key);
    var queue := h.queue - {i};
    if h.fp[i] == [] {
      h' := h.(queue := queue);
    } else {
      var line := h.fp[i][0];
      h' := Heads(queue[i := key(line)], h.buf[i := line], h.fp[i := h.fp[i][1..]]);
    }
    var runs' := runs[i := runs[i][1..]];
    forall k | 0 <= k < |runs| && k != i ensures StandsAt(h', runs'[k], k, key) { assert StandsAt(h, runs[k], k, key); }
  }
}
