/**
 The GRO tables: flows mapped to slices of items whose backing arrays come from a pool.
 tcpGROTable and udpGROTable are two objects of this class.
 */
module Tables {
  import opened Packet
  import opened Gro
  import opened GroInvariant

  /** A []tcpGROItem or []udpGROItem from the start of its backing array. */
  datatype ItemSlice = ItemSlice(arr: array<Item>, len: nat)

  ghost function SliceItems(s: ItemSlice): seq<Item>
    requires s.len <= s.arr.Length
    reads s.arr
  {
    s.arr[..s.len]
  }

  /** The contents of the slices of a map. */
  ghost function Contents(m: map<FlowKey, ItemSlice>): (v: map<FlowKey, seq<Item>>)
    requires forall key :: key in m ==> m[key].len <= m[key].arr.Length
    reads set key | key in m :: m[key].arr
    ensures v.Keys == m.Keys
  {
    map key | key in m :: SliceItems(m[key])
  }

  /** No two slices, pooled or in use, share a backing array. */
  ghost predicate Distinct(pool: seq<array<Item>>, flows: map<FlowKey, ItemSlice>) {
    && (forall p, q :: 0 <= p < q < |pool| ==> pool[p] != pool[q])
    && (forall p, key :: 0 <= p < |pool| && key in flows ==> pool[p] != flows[key].arr)
    && (forall key, key' :: key in flows && key' in flows && key != key' ==> flows[key].arr != flows[key'].arr)
  }

  lemma Resliced(pool: seq<array<Item>>, flows: map<FlowKey, ItemSlice>, key: FlowKey, len: nat)
    requires Distinct(pool, flows) && key in flows
    ensures var after := flows[key := ItemSlice(flows[key].arr, len)];
            Distinct(pool, after) && |after| == |flows|
  {
  }

  lemma Popped(pool: seq<array<Item>>, flows: map<FlowKey, ItemSlice>, key: FlowKey, len: nat)
    requires Distinct(pool, flows) && key !in flows && pool != []
    ensures var after := flows[key := ItemSlice(pool[|pool| - 1], len)];
            Distinct(pool[..|pool| - 1], after) && |after| == |flows| + 1
  {
  }

  lemma Returned(pool: seq<array<Item>>, flows: map<FlowKey, ItemSlice>, key: FlowKey)
    requires Distinct(pool, flows) && key in flows
    ensures Distinct(pool + [flows[key].arr], flows - {key}) && |flows - {key}| == |flows| - 1
  {
  }

  lemma DropLast<T>(s: seq<T>, rest: seq<T>, last: T)
    requires s == rest + [last]
    ensures s[..|s| - 1] == rest
  {
  }

  lemma Overwritten<K, V>(m: map<K, V>, key: K, a: V, b: V)
    ensures m[key := a][key := b] == m[key := b]
  {
  }

  /** append(items[:i], items[i+1:]...): what follows item i moves down by one. */
  method ShiftDown(arr: array<Item>, i: nat, len: nat)
    requires i < len <= arr.Length
    modifies arr
    ensures arr[..len - 1] == old(arr[..i]) + old(arr[i + 1..len]) && arr[len - 1] == old(arr[len - 1])
  {
    var k := i;
    while k + 1 < len
      invariant i <= k < len
      invariant forall a :: 0 <= a < i ==> arr[a] == old(arr[a])
      invariant forall a :: i <= a < k ==> arr[a] == old(arr[a + 1])
      invariant forall a :: k < a < len ==> arr[a] == old(arr[a])
      invariant arr[len - 1] == old(arr[len - 1])
    {
      arr[k] := arr[k + 1];
      k := k + 1;
    }
  }

  class GroTable {
    /** conn.IdealBatchSize */
    const batchSize: nat
    ghost const arrays: set<array<Item>>
    var itemsByFlow: map<FlowKey, ItemSlice>
    var itemsPool: seq<array<Item>>

    ghost predicate SlicesOk()
      reads this
    {
      && (forall p :: 0 <= p < |itemsPool| ==> itemsPool[p] in arrays && itemsPool[p].Length == batchSize)
      && (forall key :: key in itemsByFlow ==>
            itemsByFlow[key].arr in arrays && itemsByFlow[key].len <= itemsByFlow[key].arr.Length == batchSize)
    }

    /** Pooled slices and live flows together are always batchSize many. */
    ghost predicate Valid()
      reads this
    {
      SlicesOk() && Distinct(itemsPool, itemsByFlow) && |itemsPool| + |itemsByFlow| == batchSize
    }

    /** The items of every flow. */
    ghost function View(): (v: map<FlowKey, seq<Item>>)
      requires Valid()
      reads this, arrays
      ensures v.Keys == itemsByFlow.Keys
      ensures forall key :: key in v ==>
                itemsByFlow[key].len <= itemsByFlow[key].arr.Length == batchSize
                    && v[key] == itemsByFlow[key].arr[..itemsByFlow[key].len]
    {
      Contents(itemsByFlow)
    }

    /** Writing one flow's array and slice leaves the items of the other flows alone. */
    twostate lemma OneFlowChanged(key: FlowKey)
      requires old(SlicesOk()) && SlicesOk() && key in itemsByFlow
      requires itemsByFlow == old(itemsByFlow)[key := itemsByFlow[key]]
      requires forall k :: k in itemsByFlow && k != key ==> itemsByFlow[k].arr[..] == old(itemsByFlow[k].arr[..])
      ensures Contents(itemsByFlow) == old(Contents(itemsByFlow))[key := SliceItems(itemsByFlow[key])]
    {
      forall k | k in itemsByFlow && k != key
        ensures k in old(itemsByFlow) && SliceItems(itemsByFlow[k]) == old(SliceItems(itemsByFlow[k]))
      {
        var a, n := itemsByFlow[k].arr, itemsByFlow[k].len;
        assert a[..n] == a[..][..n];
        assert old(a[..n]) == old(a[..])[..n];
      }
      var after, before := Contents(itemsByFlow), old(Contents(itemsByFlow))[key := SliceItems(itemsByFlow[key])];
      assert after.Keys == before.Keys;
      assert forall k :: k in after ==> after[k] == before[k];
    }

    /** newTCPGROTable and newUDPGROTable: an empty map and a pool of empty slices. */
    constructor (batchSize: nat)
      ensures Valid() && this.batchSize == batchSize && fresh(arrays)
      ensures View() == map[] && |itemsPool| == batchSize
    {
      this.batchSize := batchSize;
      itemsByFlow := map[];
      var pool: seq<array<Item>> := [];
      while |pool| < batchSize
        invariant |pool| <= batchSize
        invariant forall p :: 0 <= p < |pool| ==> fresh(pool[p]) && pool[p].Length == batchSize
        invariant forall p, q :: 0 <= p < q < |pool| ==> pool[p] != pool[q]
      {
        var items := new Item[batchSize];
        pool := pool + [items];
      }
      itemsPool := pool;
      arrays := set p | 0 <= p < |pool| :: pool[p];
    }

    /** Pops a slice off the pool, which must not be empty. */
    method NewItems() returns (items: ItemSlice)
      requires |itemsPool| > 0
      modifies this`itemsPool
      ensures itemsPool == old(itemsPool)[..|old(itemsPool)| - 1]
      ensures items == ItemSlice(old(itemsPool)[|old(itemsPool)| - 1], 0)
    {
      items := ItemSlice(itemsPool[|itemsPool| - 1], 0);
      itemsPool := itemsPool[..|itemsPool| - 1];
    }

    /** items = append(items, item); t.itemsByFlow[item.key] = items */
    method Append(items: ItemSlice, item: Item)
      requires SlicesOk() && items.len < items.arr.Length == batchSize && items.arr in arrays
      requires if item.key in itemsByFlow then items == itemsByFlow[item.key] else items.len == 0
      requires forall k :: k in itemsByFlow && k != item.key ==> itemsByFlow[k].arr != items.arr
      modifies this`itemsByFlow, items.arr
      ensures SlicesOk()
      ensures itemsByFlow == old(itemsByFlow)[item.key := ItemSlice(items.arr, items.len + 1)]
      ensures Contents(itemsByFlow) == Extended(old(Contents(itemsByFlow)), item)
    {
      ghost var was := items.arr[..items.len];
      items.arr[items.len] := item;
      itemsByFlow := itemsByFlow[item.key := ItemSlice(items.arr, items.len + 1)];
      assert SliceItems(itemsByFlow[item.key]) == was + [item];
      OneFlowChanged(item.key);
    }

    /** Appends item to its flow, taking a slice from the pool for a new flow. */
    method Insert(item: Item)
      requires Valid()
      requires item.key in itemsByFlow ==> itemsByFlow[item.key].len < batchSize
      requires item.key !in itemsByFlow ==> |itemsPool| > 0
      modifies this, arrays
      ensures Valid() && View() == Extended(old(View()), item)
      ensures |itemsByFlow| <= |old(itemsByFlow)| + 1
    {
      hide Distinct, Extended;
      if item.key in itemsByFlow {
        var items := itemsByFlow[item.key];
        Resliced(itemsPool, itemsByFlow, item.key, items.len + 1);
        ArraysDiffer(item.key);
        Append(items, item);
      } else {
        Popped(itemsPool, itemsByFlow, item.key, 1);
        PoolDiffers();
        var items := NewItems();
        assert SlicesOk();
        Append(items, item);
      }
    }

    lemma ArraysDiffer(key: FlowKey)
      requires Valid() && key in itemsByFlow
      ensures forall k :: k in itemsByFlow && k != key ==> itemsByFlow[k].arr != itemsByFlow[key].arr
    {
    }

    lemma PoolDiffers()
      requires Valid() && itemsPool != []
      ensures forall k :: k in itemsByFlow ==> itemsByFlow[k].arr != itemsPool[|itemsPool| - 1]
    {
    }

    /** The flow's items as a slice of the shared backing array, or nothing after inserting item. */
    method LookupOrInsert(item: Item) returns (items: ItemSlice, existing: bool)
      requires Valid()
      requires item.key !in itemsByFlow ==> |itemsPool| > 0
      modifies this, arrays
      ensures Valid() && existing == (item.key in old(itemsByFlow))
      ensures existing ==>
                && item.key in itemsByFlow && items == itemsByFlow[item.key]
                && itemsByFlow == old(itemsByFlow) && View() == old(View())
      ensures !existing ==> items.len == 0 && View() == old(View())[item.key := [item]]
      ensures |itemsByFlow| <= |old(itemsByFlow)| + 1
    {
      if item.key in itemsByFlow {
        return itemsByFlow[item.key], true;
      }
      Insert(item);
      assert [] + [item] == [item];
      return ItemSlice(itemsByFlow[item.key].arr, 0), false;
    }

    method UpdateAt(item: Item, i: nat)
      requires Valid() && item.key in itemsByFlow && i < itemsByFlow[item.key].len
      modifies arrays
      ensures Valid() && View() == old(View())[item.key := old(View())[item.key][i := item]]
    {
      var items := itemsByFlow[item.key];
      items.arr[i] := item;
      assert SliceItems(items) == old(SliceItems(items))[i := item];
      OneFlowChanged(item.key);
    }

    /** Removes item i in place: what follows it moves down, what precedes it stays. */
    method DeleteAt(key: FlowKey, i: nat)
      requires Valid() && key in itemsByFlow && i < itemsByFlow[key].len
      modifies this, arrays
      ensures Valid()
      ensures View() == old(View())[key := old(View())[key][..i] + old(View())[key][i + 1..]]
      ensures itemsByFlow == old(itemsByFlow)[key := ItemSlice(old(itemsByFlow)[key].arr,
          old(itemsByFlow)[key].len - 1)]
    {
      hide *;
      ghost var before, was := View(), View()[key];
      ghost var rest := was[..i] + was[i + 1..];
      var items := itemsByFlow[key];
      ShiftItems(key, i);
      assert items.arr[..items.len] == rest + [was[items.len - 1]];
      DropLast(items.arr[..items.len], rest, was[items.len - 1]);
      assert items.arr[..items.len - 1] == items.arr[..items.len][..items.len - 1];
      SetLen(key, items.len - 1);
      Overwritten(before, key, rest + [was[items.len - 1]], rest);
    }

    /** The in-place move of append(items[:i], items[i+1:]...): the last item is left behind twice. */
    method ShiftItems(key: FlowKey, i: nat)
      requires Valid() && key in itemsByFlow && i < itemsByFlow[key].len
      modifies arrays
      ensures Valid()
      ensures View() == old(View())[key := old(View())[key][..i] + old(View())[key][i + 1..]
          + [old(View())[key][|old(View())[key]| - 1]]]
    {
      hide Distinct;
      var items := itemsByFlow[key];
      ArraysDiffer(key);
      ghost var was := items.arr[..items.len];
      ShiftDown(items.arr, i, items.len);
      assert items.arr[..items.len] == was[..i] + was[i + 1..] + [was[|was| - 1]];
      OneFlowChanged(key);
    }

    /** t.itemsByFlow[key] = items[:len] */
    method SetLen(key: FlowKey, len: nat)
      requires Valid() && key in itemsByFlow && len <= batchSize
      modifies this`itemsByFlow
      ensures Valid() && itemsByFlow == old(itemsByFlow)[key := ItemSlice(old(itemsByFlow)[key].arr, len)]
      ensures View() == old(View())[key := itemsByFlow[key].arr[..len]]
    {
      hide Distinct;
      Resliced(itemsPool, itemsByFlow, key, len);
      itemsByFlow := itemsByFlow[key := ItemSlice(itemsByFlow[key].arr, len)];
      OneFlowChanged(key);
    }

    /** Empties the map and gives every slice back to the pool. */
    method Reset()
      requires Valid()
      modifies this
      ensures Valid() && View() == map[] && |itemsPool| == batchSize
    {
      hide Distinct;
      while itemsByFlow.Keys != {}
        invariant Valid()
        decreases |itemsByFlow|
      {
        var key :| key in itemsByFlow.Keys;
        Returned(itemsPool, itemsByFlow, key);
        itemsPool := itemsPool + [itemsByFlow[key].arr];
        itemsByFlow := itemsByFlow - {key};
      }
      assert |itemsByFlow| == 0;
    }
  }
}
