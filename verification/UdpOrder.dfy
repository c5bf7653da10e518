/** UDP GRO never reorders a flow: its items, taken in list order, hold its packets as they arrived. */
module UdpOrder {
  import opened Options
  import opened Packet
  import opened Gro
  import opened GroItem
  import opened GroInvariant

  /** The packets of a list of items, item by item. */
  function HeldBy(parts: seq<seq<nat>>, items: seq<Item>): seq<nat> {
    if items == [] then []
    else
      var last := items[|items| - 1].bufsIndex;
      HeldBy(parts, items[..|items| - 1]) + (if last < |parts| then parts[last] else [])
  }

  function Held(s: State, key: FlowKey): seq<nat> {
    if key in s.flows then HeldBy(s.parts, s.flows[key]) else []
  }

  /** The packets before n that classify under key, in order of arrival. */
  function Arrivals(inp: Input, key: FlowKey, n: nat): seq<nat> {
    if n == 0 then []
    else
      var d := Desc(inp, n - 1);
      Arrivals(inp, key, n - 1) + (if d.Some? && d.value.key == key then [n - 1] else [])
  }

  /** All are less than n, and the first comes before the others. */
  predicate FirstIsLeast(ps: seq<nat>, n: nat) {
    && (forall j :: 0 <= j < |ps| ==> ps[j] < n)
    && forall j :: 0 < j < |ps| ==> ps[0] < ps[j]
  }

  lemma LeastStays(ps: seq<nat>, n: nat)
    requires FirstIsLeast(ps, n)
    ensures FirstIsLeast(ps, n + 1) && FirstIsLeast(ps + [n], n + 1)
  {
  }

  lemma {:induction false} ArrivalsIncrease(inp: Input, key: FlowKey, n: nat)
    ensures FirstIsLeast(Arrivals(inp, key, n), n)
  {
    hide Desc, FirstIsLeast;
    if n == 0 {
      NoneIsLeast();
    } else {
      var before := Arrivals(inp, key, n - 1);
      ArrivalsIncrease(inp, key, n - 1);
      LeastStays(before, n - 1);
      assert before + [] == before;
    }
  }

  lemma NoneIsLeast()
    ensures FirstIsLeast([], 0)
  {
  }

  ghost predicate InOrder(inp: Input, s: State, i: nat) {
    forall key: FlowKey :: key.UdpKey? ==> Held(s, key) == Arrivals(inp, key, i)
  }

  lemma {:induction false} HeldFrame(parts: seq<seq<nat>>, parts': seq<seq<nat>>, items: seq<Item>)
    requires |parts| == |parts'|
    requires forall j :: 0 <= j < |items| ==>
        items[j].bufsIndex < |parts| && parts[items[j].bufsIndex] == parts'[items[j].bufsIndex]
    ensures HeldBy(parts, items) == HeldBy(parts', items)
  {
    if items != [] {
      HeldFrame(parts, parts', items[..|items| - 1]);
    }
  }

  lemma HeldNothing(parts: seq<seq<nat>>)
    ensures HeldBy(parts, []) == []
  {
  }

  lemma HeldGrown(parts: seq<seq<nat>>, items: seq<Item>, neu: Item)
    requires neu.bufsIndex < |parts|
    ensures HeldBy(parts, items + [neu]) == HeldBy(parts, items) + parts[neu.bufsIndex]
  {
  }

  lemma HeldMerged(parts: seq<seq<nat>>, items: seq<Item>, grown: Item, i: nat)
    requires items != [] && i < |parts| && parts[i] == [i]
    requires grown.bufsIndex == items[|items| - 1].bufsIndex < |parts| && grown.bufsIndex != i
    requires forall j :: 0 <= j < |items| - 1 ==>
               items[j].bufsIndex < |parts| && items[j].bufsIndex != i && items[j].bufsIndex != grown.bufsIndex
    ensures HeldBy(MoveParts(parts, i, Appended(grown.bufsIndex)), items[|items| - 1 := grown])
        == HeldBy(parts, items) + [i]
  {
    var after, n := items[|items| - 1 := grown], |items| - 1;
    assert after[..n] == items[..n];
    HeldFrame(parts, MoveParts(parts, i, Appended(grown.bufsIndex)), items[..n]);
  }

  /** A step on another flow leaves what a flow's items hold as it was. */
  lemma OtherHeld(inp: Input, s: State, i: nat, key: FlowKey)
    requires Inv(inp, s, i) && Good(inp, i + 1) && StepOk(s, inp.offset, i, Desc(inp, i))
    requires Desc(inp, i).Some? ==> Desc(inp, i).value.key != key
    ensures Held(GroStep(s, inp.offset, i, Desc(inp, i)), key) == Held(s, key)
  {
    hide Inv, Desc, Good, GroStep, StepOk, HeldBy;
    var s' := GroStep(s, inp.offset, i, Desc(inp, i));
    OtherFlow(inp, s, i, key);
    StepKeeps(inp, s, i);
    InvSizes(inp, s, i);
    InvSizes(inp, s', i + 1);
    if key in s.flows {
      forall j | 0 <= j < |s.flows[key]|
        ensures SameBuffer(s, s', s.flows[key][j].bufsIndex)
      {
      }
      HeldFrame(s.parts, s'.parts, s.flows[key]);
    }
  }

  /** A step on the flow itself adds its packet at the end. */
  lemma OwnFlow(inp: Input, s: State, i: nat, neu: Item)
    requires Inv(inp, s, i) && Good(inp, i + 1) && Desc(inp, i) == Some(neu) && neu.key.UdpKey?
    requires StepOk(s, inp.offset, i, Some(neu))
    ensures Held(GroStep(s, inp.offset, i, Some(neu)), neu.key) == Held(s, neu.key) + [i]
  {
    hide All, Holds, Classify, ClearHeader, UdpPacketsCanCoalesce, ChecksumValid, Writing, Capacities, HeldBy,
        MoveParts;
    StepReady(inp, s, i);
    assert neu.UdpItem?;
    if neu.key !in s.flows {
      HeldGrown(s.parts, [], neu);
      assert [] + [neu] == [neu];
      HeldNothing(s.parts);
    } else {
      var items := s.flows[neu.key];
      var last := items[|items| - 1];
      var scan := UdpScan(s.bufs, inp.offset, i, neu, items);
      if scan.verdict.Inserted? {
        HeldGrown(s.parts, items, scan.items[|items|]);
      } else {
        assert FlowHolds(inp, s, i, neu.key);
        forall j | 0 <= j < |items| - 1
          ensures items[j].bufsIndex < i && items[j].bufsIndex != last.bufsIndex
        {
          FlowItem(inp, s, i, neu.key, j);
        }
        FlowItem(inp, s, i, neu.key, |items| - 1);
        HeldMerged(s.parts, items, scan.items[|items| - 1], i);
      }
    }
  }

  lemma StepInOrder(inp: Input, s: State, i: nat)
    requires Inv(inp, s, i) && Good(inp, i + 1) && InOrder(inp, s, i) && StepOk(s, inp.offset, i, Desc(inp, i))
    ensures InOrder(inp, GroStep(s, inp.offset, i, Desc(inp, i)), i + 1)
  {
    hide Inv, Desc, Good, GroStep, StepOk, Held;
    var s' := GroStep(s, inp.offset, i, Desc(inp, i));
    forall key: FlowKey | key.UdpKey?
      ensures Held(s', key) == Arrivals(inp, key, i + 1)
    {
      assert Held(s, key) == Arrivals(inp, key, i);
      if Desc(inp, i).Some? && Desc(inp, i).value.key == key {
        OwnFlow(inp, s, i, Desc(inp, i).value);
      } else {
        OtherHeld(inp, s, i, key);
      }
    }
  }

  /** After any number of packets, a UDP flow's items hold all of its packets in arrival order. */
  lemma {:induction false} RunInOrder(inp: Input, n: nat, key: FlowKey)
    requires Good(inp, n) && key.UdpKey?
    ensures Held(Run(inp, n), key) == Arrivals(inp, key, n)
    ensures key in Run(inp, n).flows ==> Run(inp, n).flows[key] != []
  {
    RunAllInOrder(inp, n);
    assert InOrder(inp, Run(inp, n), n);
    var s := Run(inp, n);
    if key in s.flows {
      assert FlowHolds(inp, s, n, key);
    }
  }

  lemma {:induction false} RunAllInOrder(inp: Input, n: nat)
    requires Good(inp, n)
    ensures InOrder(inp, Run(inp, n), n)
  {
    hide Inv, Desc, GroStep;
    if n > 0 {
      RunAllInOrder(inp, n - 1);
      StepKeeps(inp, Run(inp, n - 1), n - 1);
      StepInOrder(inp, Run(inp, n - 1), n - 1);
    }
  }
}
