// FilterThreadPool (include/inner_column.h): run(function, num_tasks) publishes a call to the worker
// threads one flag at a time and waits for each of them.  Waiting on a condition variable is a step
// that is possible when its predicate holds and the mutex is free.
module FilterPool {
  import opened Bits
  import opened SeqFacts

  // base = num_tasks / threads.size(), rem = num_tasks % threads.size()
  function BeginIdx(numTasks: nat, threads: nat, threadId: nat): nat
    requires threads > 0
  {
    threadId * (numTasks / threads) + Min(threadId, numTasks % threads)
  }

  // The workers' ranges tile [0, numTasks).
  lemma RangesTile(numTasks: nat, threads: nat, i: nat)
    requires threads > 0 && i < threads
    ensures BeginIdx(numTasks, threads, 0) == 0 && BeginIdx(numTasks, threads, threads) == numTasks
    ensures BeginIdx(numTasks, threads, i) <= BeginIdx(numTasks, threads, i + 1)
  {
    var base, rem := numTasks / threads, numTasks % threads;
    MulSucc(i, base);
    assert threads * base + rem == numTasks;
  }

  lemma {:induction false} BeginMonotone(numTasks: nat, threads: nat, i: nat, j: nat)
    requires threads > 0 && i <= j <= threads
    ensures BeginIdx(numTasks, threads, i) <= BeginIdx(numTasks, threads, j) <= numTasks
    decreases threads - i
  {
    hide BeginIdx;
    if i < j {
      RangesTile(numTasks, threads, i);
      BeginMonotone(numTasks, threads, i + 1, j);
    } else if j < threads {
      RangesTile(numTasks, threads, j);
      BeginMonotone(numTasks, threads, j + 1, threads);
    } else {
      RangesTile(numTasks, threads, 0);
    }
  }

  // The thread whose range holds an index.
  lemma {:induction false} Owner(numTasks: nat, threads: nat, b: nat, k: nat) returns (t: nat)
    requires 0 < k <= threads && b < BeginIdx(numTasks, threads, k)
    ensures t < k && BeginIdx(numTasks, threads, t) <= b < BeginIdx(numTasks, threads, t + 1)
  {
    hide BeginIdx;
    RangesTile(numTasks, threads, 0);
    if BeginIdx(numTasks, threads, k - 1) <= b {
      t := k - 1;
    } else {
      t := Owner(numTasks, threads, b, k - 1);
    }
  }

  function Range(from: nat, to: nat): (r: seq<nat>)
    ensures |r| == if from < to then to - from else 0
    ensures forall k :: 0 <= k < |r| ==> r[k] == from + k
  {
    seq(if from < to then to - from else 0, k requires 0 <= k => from + k)
  }

  lemma EmptyRange(from: nat, to: nat)
    requires to <= from
    ensures Range(from, to) == []
  {
  }

  lemma RangeSplit(a: nat, b: nat)
    requires a <= b
    ensures Range(0, b) == Range(0, a) + Range(a, b)
  {
  }

  // A worker waits, or runs the function of some call on a range while it holds its mutex.
  datatype Worker = Waiting | Running(call: nat, begin: nat, end: nat)

  // What the done workers have contributed.
  ghost function Shares(numTasks: nat, done: seq<bool>): (r: seq<multiset<nat>>)
    ensures |r| == |done| && forall i :: 0 <= i < |done| ==> r[i] == Share(numTasks, |done|, i, done[i])
  {
    seq(|done|, i requires 0 <= i < |done| => Share(numTasks, |done|, i, done[i]))
  }

  ghost function Share(numTasks: nat, threads: nat, i: nat, done: bool): multiset<nat>
    requires i < threads
  {
    if done then multiset(Range(BeginIdx(numTasks, threads, i), BeginIdx(numTasks, threads, i + 1))) else multiset{}
  }

  lemma ShareDone(numTasks: nat, done: seq<bool>, i: nat)
    requires i < |done| && !done[i]
    ensures Sum(Shares(numTasks, done[i := true]))
         == Sum(Shares(numTasks, done)) + multiset(Range(BeginIdx(numTasks, |done|, i), BeginIdx(numTasks, |done|, i + 1)))
  {
    hide BeginIdx, Range, Sum;
    var m := multiset(Range(BeginIdx(numTasks, |done|, i), BeginIdx(numTasks, |done|, i + 1)));
    SumAdd(Shares(numTasks, done), i, m);
    var before, after := Shares(numTasks, done), Shares(numTasks, done[i := true]);
    assert before[i] == multiset{} && before[i] + m == m;
    assert after[i] == Share(numTasks, |done|, i, true) == m;
    assert after == before[i := before[i] + m];
  }

  lemma {:induction false} AllDone(numTasks: nat, threads: nat, k: nat)
    requires threads > 0 && k <= threads
    ensures Sum(Shares(numTasks, seq(threads, i => i < k))[..k]) == multiset(Range(0, BeginIdx(numTasks, threads, k)))
  {
    hide Sum, BeginIdx, Range;
    var all := Shares(numTasks, seq(threads, i => i < k));
    if k == 0 {
      RangesTile(numTasks, threads, 0);
      SumEmpty(all[..0]);
      EmptyRange(0, 0);
    } else {
      AllDone(numTasks, threads, k - 1);
      RangesTile(numTasks, threads, k - 1);
      var before := Shares(numTasks, seq(threads, i => i < k - 1));
      assert all[..k] == before[..k - 1] + [all[k - 1]];
      SumSnoc(before[..k - 1], all[k - 1]);
      var a, b := BeginIdx(numTasks, threads, k - 1), BeginIdx(numTasks, threads, k);
      RangeSplit(a, b);
    }
  }

  lemma EveryoneDone(numTasks: nat, done: seq<bool>)
    requires |done| > 0 && forall i :: 0 <= i < |done| ==> done[i]
    ensures Sum(Shares(numTasks, done)) == multiset(Range(0, numTasks))
  {
    hide Sum, BeginIdx;
    AllDone(numTasks, |done|, |done|);
    RangesTile(numTasks, |done|, 0);
    assert done == seq(|done|, i => i < |done|);
    assert Shares(numTasks, done)[..|done|] == Shares(numTasks, done);
  }

  // Which threads have been told and have finished.
  ghost function Done(finished: seq<bool>, published: nat): (r: seq<bool>)
    ensures |r| == |finished| && forall i :: 0 <= i < |finished| ==> r[i] == (i < published && finished[i])
  {
    seq(|finished|, i requires 0 <= i < |finished| => i < published && finished[i])
  }

  class FilterThreadPool {
    const threads: nat
    var hasFunction: seq<bool>
    var finished: seq<bool>
    var workers: seq<Worker>
    var call: nat               // which function is set: the number of calls of run so far
    var numTasks: nat
    ghost var executed: seq<seq<nat>>   // for each call, the indices its function was applied to

    // Between calls no worker has anything to do.
    ghost predicate Quiet()
      reads this
    {
      && |hasFunction| == |finished| == |workers| == threads > 0 && |executed| == call
      && forall i :: 0 <= i < threads ==> workers[i].Waiting? && (finished[i] || !hasFunction[i])
    }

    // During a call: the first published threads have been told, and the indices executed so far are
    // the shares of those of them that have finished.
    ghost predicate InCall(published: nat)
      reads this
    {
      && |hasFunction| == |finished| == |workers| == threads > 0 && |executed| == call > 0 && published <= threads
      && (forall i :: 0 <= i < published ==> hasFunction[i])
      && (forall i :: published <= i < threads ==> workers[i].Waiting? && (finished[i] || !hasFunction[i]))
      && (forall i :: 0 <= i < threads && workers[i].Running? ==>
            !finished[i] && workers[i] == Running(call, BeginIdx(numTasks, threads, i), BeginIdx(numTasks, threads, i + 1)))
      && multiset(executed[call - 1]) == Sum(Shares(numTasks, Done(finished, published)))
    }

    constructor (numThreads: nat)
      requires numThreads > 0
      ensures Quiet() && threads == numThreads && executed == []
    {
      threads := numThreads;
      hasFunction := seq(numThreads, i => false);
      finished := seq(numThreads, i => false);
      workers := seq(numThreads, i => Waiting);
      call, numTasks, executed := 0, 0, [];
    }

    // this->function = function; this->num_tasks = num_tasks: no lock, because every worker is quiet.
    method SetFunction(numTasks: nat)
      requires Quiet()
      modifies this
      ensures InCall(0) && this.numTasks == numTasks && call == old(call) + 1
      ensures executed == old(executed) + [[]]
    {
      this.numTasks := numTasks;
      call := call + 1;
      executed := executed + [[]];
      SumEmpty(Shares(this.numTasks, Done(finished, 0)));
    }

    // The main thread sets the flags of thread i under its mutex, which that worker does not hold.
    method Publish(i: nat)
      requires InCall(i) && i < threads
      modifies this`hasFunction, this`finished
      ensures InCall(i + 1)
    {
      ghost var before := Done(finished, i);
      hasFunction := hasFunction[i := true];
      finished := finished[i := false];
      assert Done(finished, i + 1) == before;
    }

    // A worker's wait ends: it reads the call and its range.
    method Wake(i: nat, ghost published: nat)
      requires InCall(published) && i < threads && workers[i].Waiting? && hasFunction[i] && !finished[i]
      modifies this`workers
      ensures InCall(published) && workers == old(workers)[i := workers[i]] && workers[i].Running?
    {
      hide Shares, Sum, BeginIdx, Done;
      var begin := BeginIdx(numTasks, threads, i);
      var end := BeginIdx(numTasks, threads, i + 1);
      workers := workers[i := Running(call, begin, end)];
    }

    // The worker applies the function it read, sets its flag and lets go of the mutex.
    method Finish(i: nat, ghost published: nat)
      requires InCall(published) && i < threads && workers[i].Running?
      modifies this`workers, this`finished, this`executed
      ensures InCall(published) && workers == old(workers)[i := Waiting] && finished == old(finished)[i := true]
      ensures executed[..call - 1] == old(executed)[..call - 1]
    {
      hide Shares, Sum, BeginIdx, Range;
      var w := workers[i];
      ghost var before := Done(finished, published);
      ShareDone(numTasks, before, i);
      if w.begin < w.end {
        executed := executed[w.call - 1 := executed[w.call - 1] + Range(w.begin, w.end)];
      } else {
        EmptyRange(w.begin, w.end);
      }
      finished := finished[i := true];
      workers := workers[i := Waiting];
      assert Done(finished, published) == before[i := true];
    }

    // One step of worker i, if it can take one.
    method WorkerStep(i: nat, ghost published: nat)
      requires InCall(published) && i < threads
      modifies this`workers, this`finished, this`executed
      ensures InCall(published) && executed[..call - 1] == old(executed)[..call - 1]
      ensures forall k :: 0 <= k < threads && old(finished)[k] ==> finished[k]
    {
      if workers[i].Running? {
        Finish(i, published);
      } else if hasFunction[i] && !finished[i] {
        Wake(i, published);
      }
    }

    // run(function, num_tasks) with the workers' steps interleaved in any way: a schedule entry below
    // threads is a step of that worker, any other entry is the next step of the caller.  When the
    // schedule is used up the remaining steps follow in order.
    method Run(numTasks: nat, schedule: seq<nat>)
      requires Quiet()
      modifies this
      ensures Quiet() && |executed| == |old(executed)| + 1 && executed[..|old(executed)|] == old(executed)
      ensures multiset(executed[|old(executed)|]) == multiset(Range(0, numTasks))
    {
      hide Shares, Sum, BeginIdx, Range, Done;
      SetFunction(numTasks);
      var published: nat, joined: nat := 0, 0;
      for k := 0 to |schedule|
        invariant published <= threads && joined <= published && (joined > 0 ==> published == threads)
        invariant InCall(published) && this.numTasks == numTasks && call == |old(executed)| + 1
        invariant executed[..call - 1] == old(executed)
        invariant forall i :: 0 <= i < joined ==> finished[i]
      {
        if schedule[k] < threads {
          WorkerStep(schedule[k], published);
        } else {
          published, joined := MainStep(published, joined);
        }
      }
      RunOut(published, joined);
      EveryoneDone(numTasks, Done(finished, threads));
    }

    // Once the schedule is over, the caller and then each worker go on to the end of the call.
    method RunOut(from: nat, waited: nat)
      requires InCall(from) && waited <= from && (waited > 0 ==> from == threads)
      requires forall i :: 0 <= i < waited ==> finished[i]
      modifies this
      ensures InCall(threads) && numTasks == old(numTasks) && call == old(call)
      ensures executed[..call - 1] == old(executed[..call - 1])
      ensures forall i :: 0 <= i < threads ==> finished[i]
    {
      hide Shares, Sum, BeginIdx, Range, Done;
      var published, joined := from, waited;
      while published < threads
        invariant published <= threads && joined <= published && (joined > 0 ==> published == threads)
        invariant InCall(published) && numTasks == old(numTasks) && call == old(call)
        invariant executed[..call - 1] == old(executed[..call - 1])
        invariant forall i :: 0 <= i < joined ==> finished[i]
      {
        Publish(published);
        published := published + 1;
      }
      while joined < threads
        invariant joined <= threads && InCall(threads) && numTasks == old(numTasks) && call == old(call)
        invariant executed[..call - 1] == old(executed[..call - 1])
        invariant forall i :: 0 <= i < joined ==> finished[i]
      {
        if workers[joined].Waiting? && !finished[joined] {
          Wake(joined, threads);
        }
        if workers[joined].Running? {
          Finish(joined, threads);
        }
        joined := joined + 1;
      }
    }

    // The caller sets the next thread's flags or, when all are set, waits for the next thread.
    method MainStep(published: nat, joined: nat) returns (published': nat, joined': nat)
      requires InCall(published) && joined <= published && (joined > 0 ==> published == threads)
      requires forall i :: 0 <= i < joined ==> finished[i]
      modifies this`hasFunction, this`finished
      ensures InCall(published') && joined' <= published' && (joined' > 0 ==> published' == threads)
      ensures forall i :: 0 <= i < joined' ==> finished[i]
    {
      published', joined' := published, joined;
      if published < threads {
        Publish(published);
        published' := published + 1;
      } else if joined < threads && workers[joined].Waiting? && finished[joined] {
        joined' := joined + 1;
      }
    }
  }
}
