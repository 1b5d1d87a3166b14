// The work-stealing protocol of the parallel probe (src/execute.cpp): every worker claims a page
// with fetch_add on a shared counter, walks its slots, and claims the next one.
module ProbeWorkers {
  import opened SeqFacts

  datatype Worker = Idle | Holding(page: nat, slot: nat) | Done

  // Addresses p * BOXES + s of the slots of one page and of all pages.
  function PageAddresses(p: nat, n: nat): (r: seq<nat>)
    ensures |r| == n && forall s :: 0 <= s < n ==> r[s] == p * 1024 + s
  {
    seq(n, s requires 0 <= s < n => p * 1024 + s)
  }

  function Addresses(layout: seq<nat>): seq<nat> {
    if layout == [] then []
    else Addresses(layout[..|layout| - 1]) + PageAddresses(|layout| - 1, layout[|layout| - 1])
  }

  function PageBags(progress: seq<nat>): (r: seq<multiset<nat>>)
    ensures |r| == |progress| && forall p :: 0 <= p < |progress| ==> r[p] == multiset(PageAddresses(p, progress[p]))
  {
    seq(|progress|, p requires 0 <= p < |progress| => multiset(PageAddresses(p, progress[p])))
  }

  // A page behind the counter is finished or in the hands of one worker, which stands at its
  // progress; a page at or after the counter is untouched.
  ghost predicate PagesHeld(layout: seq<nat>, counter: nat, workers: seq<Worker>, progress: seq<nat>) {
    && |progress| == |layout|
    && (forall p :: 0 <= p < |layout| ==> progress[p] <= layout[p])
    && (forall p :: counter <= p < |layout| ==> progress[p] == 0)
    && (forall p :: 0 <= p < counter && p < |layout| ==>
          progress[p] == layout[p] || exists i :: 0 <= i < |workers| && workers[i] == Holding(p, progress[p]))
    && (forall i :: 0 <= i < |workers| && workers[i].Holding? ==>
          workers[i].page < counter && workers[i].page < |layout| && workers[i].slot == progress[workers[i].page])
    && (forall i, j :: 0 <= i < j < |workers| && workers[i].Holding? && workers[j].Holding? ==> workers[i].page != workers[j].page)
    && (forall i :: 0 <= i < |workers| && workers[i].Done? ==> counter >= |layout|)
  }

  // processed lists the addresses probed so far, by whichever worker.
  ghost predicate Protocol(layout: seq<nat>, counter: nat, workers: seq<Worker>, progress: seq<nat>, processed: seq<nat>) {
    PagesHeld(layout, counter, workers, progress) && multiset(processed) == Sum(PageBags(progress))
  }

  lemma ProtocolStart(layout: seq<nat>, workers: seq<Worker>)
    requires forall i :: 0 <= i < |workers| ==> workers[i].Idle?
    ensures Protocol(layout, 0, workers, seq(|layout|, p => 0), [])
  {
    SumEmpty(PageBags(seq(|layout|, p => 0)));
  }

  // size_t p = page_counter->fetch_add(1)
  function Claimed(layout: seq<nat>, counter: nat): Worker {
    if counter >= |layout| then Done else Holding(counter, 0)
  }

  lemma ClaimStep(layout: seq<nat>, counter: nat, workers: seq<Worker>, progress: seq<nat>, processed: seq<nat>, i: nat)
    requires Protocol(layout, counter, workers, progress, processed) && i < |workers| && workers[i].Idle?
    ensures Protocol(layout, counter + 1, workers[i := Claimed(layout, counter)], progress, processed)
  {
    hide Sum, PageBags;
    var after := workers[i := Claimed(layout, counter)];
    forall p | 0 <= p < counter + 1 && p < |layout| && progress[p] != layout[p]
      ensures exists k :: 0 <= k < |after| && after[k] == Holding(p, progress[p])
    {
      if p == counter {
        assert after[i] == Holding(p, progress[p]);
      } else {
        var k :| 0 <= k < |workers| && workers[k] == Holding(p, progress[p]);
        assert after[k] == workers[k];
      }
    }
  }

  // One slot of the page a worker holds.
  lemma SlotStep(layout: seq<nat>, counter: nat, workers: seq<Worker>, progress: seq<nat>, processed: seq<nat>, i: nat)
    requires Protocol(layout, counter, workers, progress, processed) && i < |workers| && workers[i].Holding?
    requires workers[i].page < |layout| && workers[i].slot < layout[workers[i].page]
    ensures |progress| == |layout|
    ensures var p, s := workers[i].page, workers[i].slot;
      Protocol(layout, counter, workers[i := Holding(p, s + 1)], progress[p := s + 1], processed + [p * 1024 + s])
  {
    hide Sum, PageBags, PagesHeld, PageAddresses;
    var p, s := workers[i].page, workers[i].slot;
    SlotHeld(layout, counter, workers, progress, i);
    var progress' := progress[p := s + 1];
    var a := p * 1024 + s;
    NextAddress(p, s);
    SumAdd(PageBags(progress), p, multiset{a});
    assert PageBags(progress') == PageBags(progress)[p := PageBags(progress)[p] + multiset{a}];
    assert multiset(processed + [a]) == multiset(processed) + multiset{a};
  }

  lemma NextAddress(p: nat, s: nat)
    ensures PageAddresses(p, s + 1) == PageAddresses(p, s) + [p * 1024 + s]
  {
  }

  lemma SlotHeld(layout: seq<nat>, counter: nat, workers: seq<Worker>, progress: seq<nat>, i: nat)
    requires PagesHeld(layout, counter, workers, progress) && i < |workers| && workers[i].Holding?
    requires workers[i].page < |layout| && workers[i].slot < layout[workers[i].page]
    ensures |progress| == |layout| && progress[workers[i].page] == workers[i].slot
    ensures var p, s := workers[i].page, workers[i].slot;
      PagesHeld(layout, counter, workers[i := Holding(p, s + 1)], progress[p := s + 1])
  {
    var p, s := workers[i].page, workers[i].slot;
    var after, progress' := workers[i := Holding(p, s + 1)], progress[p := s + 1];
    forall q | 0 <= q < counter && q < |layout| && progress'[q] != layout[q]
      ensures exists k :: 0 <= k < |after| && after[k] == Holding(q, progress'[q])
    {
      if q == p {
        assert after[i] == Holding(q, progress'[q]);
      } else {
        var k :| 0 <= k < |workers| && workers[k] == Holding(q, progress[q]);
        assert after[k] == workers[k];
      }
    }
  }

  // The end of the loop over the slots.
  lemma PageStep(layout: seq<nat>, counter: nat, workers: seq<Worker>, progress: seq<nat>, processed: seq<nat>, i: nat)
    requires Protocol(layout, counter, workers, progress, processed) && i < |workers| && workers[i].Holding?
    requires workers[i].page < |layout| && workers[i].slot >= layout[workers[i].page]
    ensures Protocol(layout, counter, workers[i := Idle], progress, processed)
  {
    hide Sum, PageBags;
    var after := workers[i := Idle];
    forall p | 0 <= p < counter && p < |layout| && progress[p] != layout[p]
      ensures exists k :: 0 <= k < |after| && after[k] == Holding(p, progress[p])
    {
      var k :| 0 <= k < |workers| && workers[k] == Holding(p, progress[p]);
      assert after[k] == workers[k];
    }
  }

  lemma {:induction false} AddressesAre(layout: seq<nat>)
    ensures multiset(Addresses(layout)) == Sum(PageBags(layout))
  {
    if layout != [] {
      var init := layout[..|layout| - 1];
      AddressesAre(init);
      assert PageBags(layout)[..|layout| - 1] == PageBags(init);
    }
  }

  // When all workers are done, every slot of every page has been probed exactly once.
  lemma AllProbed(layout: seq<nat>, counter: nat, workers: seq<Worker>, progress: seq<nat>, processed: seq<nat>)
    requires Protocol(layout, counter, workers, progress, processed)
    requires |workers| > 0 && forall i :: 0 <= i < |workers| ==> workers[i].Done?
    ensures multiset(processed) == multiset(Addresses(layout))
  {
    hide Sum;
    assert workers[0].Done?;
    assert progress == layout;
    AddressesAre(layout);
  }

  // No address is listed twice.
  lemma {:induction false} AddressesDistinct(layout: seq<nat>, i: nat, j: nat)
    requires forall p :: 0 <= p < |layout| ==> layout[p] <= 1024
    requires i < j < |Addresses(layout)|
    ensures Addresses(layout)[i] < Addresses(layout)[j] < 1024 * |layout|
    decreases |layout|
  {
    var init := layout[..|layout| - 1];
    var n := |Addresses(init)|;
    if j < n {
      AddressesDistinct(init, i, j);
    } else {
      if i < n {
        AddressBound(init, i);
      }
    }
  }

  lemma {:induction false} AddressBound(layout: seq<nat>, i: nat)
    requires forall p :: 0 <= p < |layout| ==> layout[p] <= 1024
    requires i < |Addresses(layout)|
    ensures Addresses(layout)[i] / 1024 < |layout|
    ensures Addresses(layout)[i] % 1024 < layout[Addresses(layout)[i] / 1024]
    decreases |layout|
  {
    var p := |layout| - 1;
    var init := layout[..p];
    if i < |Addresses(init)| {
      AddressBound(init, i);
    } else {
      var s := i - |Addresses(init)|;
      assert Addresses(layout)[i] == p * 1024 + s;
    }
  }
}
