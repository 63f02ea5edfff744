/**
  The deadline heap of the cache: an array of entries with the entry's place in
  it kept in the entry.  Entries are named by their keys.
 */
module ExpireHeap {
  import opened Bytes

  type Deadlines = map<Bytes, nat>

  /** The key at a position expires no later than those below it; `hole` is excused. */
  predicate Above(heap: seq<Bytes>, d: Deadlines, i: int)
    requires forall j :: 0 <= j < |heap| ==> heap[j] in d
  {
    0 < i < |heap| ==> d[heap[(i - 1) / 2]] <= d[heap[i]]
  }

  ghost predicate Known(heap: seq<Bytes>, d: Deadlines) { forall j :: 0 <= j < |heap| ==> heap[j] in d }

  ghost predicate MinHeap(heap: seq<Bytes>, d: Deadlines) {
    Known(heap, d) && forall i :: 0 < i < |heap| ==> Above(heap, d, i)
  }

  /** The root expires first. */
  lemma {:induction false} RootIsLeast(heap: seq<Bytes>, d: Deadlines, i: nat)
    requires MinHeap(heap, d) && i < |heap|
    ensures d[heap[0]] <= d[heap[i]]
    decreases i
  {
    if i > 0 {
      assert Above(heap, d, i);
      RootIsLeast(heap, d, (i - 1) / 2);
    }
  }

  /** A min-heap except that position `hole` may be too early for what is above it. */
  ghost predicate UpHole(heap: seq<Bytes>, d: Deadlines, hole: nat) {
    && Known(heap, d) && hole < |heap|
    && (forall i :: 0 < i < |heap| && i != hole ==> Above(heap, d, i))
    && (forall i :: 0 < i < |heap| && (i - 1) / 2 == hole && hole > 0 ==> d[heap[(hole - 1) / 2]] <= d[heap[i]])
  }

  /** A min-heap except that position `hole` may be too late for what is below it. */
  ghost predicate DownHole(heap: seq<Bytes>, d: Deadlines, hole: nat) {
    && Known(heap, d) && hole < |heap|
    && (forall i :: 0 < i < |heap| && (i - 1) / 2 != hole ==> Above(heap, d, i))
    && (forall i :: 0 < i < |heap| && (i - 1) / 2 == hole && hole > 0 ==> d[heap[(hole - 1) / 2]] <= d[heap[i]])
  }

  /** Positions are right, for the keys of the heap and no others. */
  ghost predicate Slots(heap: seq<Bytes>, slot: map<Bytes, nat>) {
    && (forall i :: 0 <= i < |heap| ==> heap[i] in slot && slot[heap[i]] == i)
    && forall k :: k in slot ==> slot[k] < |heap| && heap[slot[k]] == k
  }

  function Swapped(heap: seq<Bytes>, i: nat, j: nat): seq<Bytes>
    requires i < |heap| && j < |heap|
  {
    heap[i := heap[j]][j := heap[i]]
  }

  lemma SwapUp(heap: seq<Bytes>, d: Deadlines, i: nat)
    requires UpHole(heap, d, i) && i > 0 && d[heap[i]] < d[heap[(i - 1) / 2]]
    ensures UpHole(Swapped(heap, i, (i - 1) / 2), d, (i - 1) / 2)
  {
    var p := (i - 1) / 2;
    var h := Swapped(heap, i, p);
    forall j | 0 < j < |h| && j != p ensures Above(h, d, j) {
      if (j - 1) / 2 == p && j != i {
        assert Above(heap, d, j);
      } else if (j - 1) / 2 == i {
        assert d[heap[p]] <= d[heap[j]];
      } else if j != i {
        assert Above(heap, d, j);
      }
    }
    forall j | 0 < j < |h| && (j - 1) / 2 == p && p > 0 ensures d[h[(p - 1) / 2]] <= d[h[j]] {
      assert Above(heap, d, p);
      if j != i { assert Above(heap, d, j); }
    }
  }

  lemma SwapDown(heap: seq<Bytes>, d: Deadlines, i: nat, s: nat)
    requires DownHole(heap, d, i) && s < |heap| && s > 0 && (s - 1) / 2 == i && d[heap[s]] < d[heap[i]]
    requires forall j :: 0 < j < |heap| && (j - 1) / 2 == i ==> d[heap[s]] <= d[heap[j]]
    ensures DownHole(Swapped(heap, i, s), d, s)
  {
    var h := Swapped(heap, i, s);
    forall j | 0 < j < |h| && (j - 1) / 2 != s ensures Above(h, d, j) {
      if j == i {
        assert d[heap[(i - 1) / 2]] <= d[heap[s]];
      } else if (j - 1) / 2 != i {
        assert Above(heap, d, j);
      }
    }
    forall j | 0 < j < |h| && (j - 1) / 2 == s ensures d[h[(s - 1) / 2]] <= d[h[j]] {
      assert Above(heap, d, j);
    }
  }

  lemma SwapSlots(heap: seq<Bytes>, slot: map<Bytes, nat>, i: nat, j: nat)
    requires Slots(heap, slot) && i < |heap| && j < |heap|
    ensures Slots(Swapped(heap, i, j), slot[heap[j] := i][heap[i] := j])
    ensures slot[heap[j] := i][heap[i] := j].Keys == slot.Keys
  {
  }

  /** One position of a heap gets another deadline: the hole is above it or below it. */
  lemma NewDeadline(heap: seq<Bytes>, d: Deadlines, h: seq<Bytes>, d': Deadlines, index: nat)
    requires MinHeap(heap, d) && index < |h| <= |heap| && Known(h, d')
    requires forall j :: 0 <= j < |h| && j != index ==> d'[h[j]] == d[heap[j]]
    ensures if index > 0 && d'[h[index]] < d'[h[(index - 1) / 2]] then UpHole(h, d', index) else DownHole(h, d', index)
  {
    if index > 0 { assert Above(heap, d, index); }
    forall i | 0 < i < |h| && (i - 1) / 2 == index && index > 0 ensures d'[h[(index - 1) / 2]] <= d'[h[i]] {
      assert Above(heap, d, i);
    }
    forall i | 0 < i < |h| && i != index && (i - 1) / 2 != index ensures Above(h, d', i) {
      assert Above(heap, d, i);
    }
  }

  lemma NoUpHole(heap: seq<Bytes>, d: Deadlines, i: nat)
    requires UpHole(heap, d, i) && (i > 0 ==> d[heap[i]] >= d[heap[(i - 1) / 2]])
    ensures MinHeap(heap, d)
  {
    assert i > 0 ==> Above(heap, d, i);
  }

  lemma NoDownHole(heap: seq<Bytes>, d: Deadlines, i: nat)
    requires DownHole(heap, d, i)
    requires forall j :: 0 < j < |heap| && (j - 1) / 2 == i ==> d[heap[i]] <= d[heap[j]]
    ensures MinHeap(heap, d)
  {
    forall j | 0 < j < |heap| ensures Above(heap, d, j) {
      if (j - 1) / 2 != i { assert Above(heap, d, j); }
    }
  }

  lemma Children(i: nat, j: nat)
    ensures j > 0 && (j - 1) / 2 == i <==> j == 2 * i + 1 || j == 2 * i + 2
  {
  }

  class Heap {
    var heap: seq<Bytes>
    var slot: map<Bytes, nat>
    var d: Deadlines

    ghost predicate Valid()
      reads this
    {
      MinHeap(heap, d) && Slots(heap, slot) && slot.Keys == d.Keys
    }

    constructor ()
      ensures Valid() && d == map[]
    {
      heap, slot, d := [], map[], map[];
    }

    method Swap(i: nat, j: nat)
      requires i < |heap| && j < |heap| && Slots(heap, slot)
      modifies this`heap, this`slot
      ensures heap == Swapped(old(heap), i, j) && Slots(heap, slot) && slot.Keys == old(slot).Keys
    {
      SwapSlots(heap, slot, i, j);
      slot := slot[heap[j] := i][heap[i] := j];
      heap := Swapped(heap, i, j);
    }

    method SiftUp(index: nat)
      requires UpHole(heap, d, index) && Slots(heap, slot)
      modifies this`heap, this`slot
      ensures MinHeap(heap, d) && Slots(heap, slot) && slot.Keys == old(slot).Keys
    {
      var i: nat := index;
      while i > 0
        invariant UpHole(heap, d, i) && Slots(heap, slot) && slot.Keys == old(slot).Keys
        decreases i
      {
        var parent := (i - 1) / 2;
        if !(d[heap[i]] < d[heap[parent]]) {
          NoUpHole(heap, d, i);
          return;
        }
        SwapUp(heap, d, i);
        Swap(i, parent);
        i := parent;
      }
      NoUpHole(heap, d, 0);
    }

    method Smallest(index: nat) returns (smallest: nat)
      requires Known(heap, d) && index < |heap|
      ensures smallest < |heap| &&
          (smallest == index || (smallest > 0 && (smallest - 1) / 2 == index && d[heap[smallest]] < d[heap[index]]))
      ensures forall j :: 0 < j < |heap| && (j - 1) / 2 == index ==> d[heap[smallest]] <= d[heap[j]]
    {
      var left := index * 2 + 1;
      var right := left + 1;
      smallest := index;
      if left < |heap| && d[heap[left]] < d[heap[smallest]] { smallest := left; }
      if right < |heap| && d[heap[right]] < d[heap[smallest]] { smallest := right; }
      forall j | 0 < j < |heap| && (j - 1) / 2 == index ensures d[heap[smallest]] <= d[heap[j]] {
        Children(index, j);
      }
    }

    method SiftDown(index: nat)
      requires DownHole(heap, d, index) && Slots(heap, slot)
      modifies this`heap, this`slot
      ensures MinHeap(heap, d) && Slots(heap, slot) && slot.Keys == old(slot).Keys
    {
      var i: nat := index;
      while true
        invariant i < |heap| && DownHole(heap, d, i) && Slots(heap, slot) && slot.Keys == old(slot).Keys
        decreases |heap| - i
      {
        var smallest := Smallest(i);
        if smallest == i {
          NoDownHole(heap, d, i);
          return;
        }
        SwapDown(heap, d, i, smallest);
        Swap(i, smallest);
        i := smallest;
      }
    }

    method Insert(k: Bytes, deadline: nat)
      requires Valid() && k !in d
      modifies this
      ensures Valid() && d == old(d)[k := deadline]
    {
      ghost var h, was := heap, d;
      var index := |heap|;
      heap, slot, d := heap + [k], slot[k := index], d[k := deadline];
      forall i | 0 < i < |heap| && i != index ensures Above(heap, d, i) {
        assert Above(h, was, i);
      }
      SiftUp(index);
    }

    /** Restores the order around one position whose deadline is new. */
    method Repair(index: nat, ghost h: seq<Bytes>, ghost was: Deadlines)
      requires MinHeap(h, was) && index < |heap| <= |h| && Known(heap, d)
      requires forall j :: 0 <= j < |heap| && j != index ==> d[heap[j]] == was[h[j]]
      requires Slots(heap, slot) && slot.Keys == d.Keys
      modifies this`heap, this`slot
      ensures Valid()
    {
      NewDeadline(h, was, heap, d, index);
      if index > 0 && d[heap[index]] < d[heap[(index - 1) / 2]] {
        SiftUp(index);
      } else {
        SiftDown(index);
      }
    }

    /** Takes out the entry at any position. */
    method RemoveAt(index: nat)
      requires Valid() && index < |heap|
      modifies this
      ensures Valid() && d == old(d) - {old(heap[index])}
    {
      var removed, last := heap[index], |heap| - 1;
      ghost var h, was := heap, d;
      RemoveSlots(heap, slot, d, index);
      slot, d := slot - {removed}, d - {removed};
      if index == last {
        heap := heap[..last];
        forall i | 0 < i < |heap| ensures Above(heap, d, i) { assert Above(h, was, i); }
      } else {
        slot := slot[heap[last] := index];
        heap := heap[..last][index := heap[last]];
        Repair(index, h, was);
      }
    }

    method Remove(k: Bytes)
      requires Valid() && k in d
      modifies this
      ensures Valid() && d == old(d) - {k}
    {
      RemoveAt(slot[k]);
    }

    method Change(k: Bytes, deadline: nat)
      requires Valid() && k in d
      modifies this
      ensures Valid() && d == old(d)[k := deadline]
    {
      ghost var h, was := heap, d;
      var index := slot[k];
      d := d[k := deadline];
      Repair(index, h, was);
    }
  }

  /** Positions after the entry at one position was replaced by the last one, or dropped. */
  lemma RemoveSlots(heap: seq<Bytes>, slot: map<Bytes, nat>, d: Deadlines, index: nat)
    requires Slots(heap, slot) && index < |heap| && slot.Keys == d.Keys
    ensures var removed, last := heap[index], |heap| - 1;
      && heap[last] in slot && removed in d
      && if index == last then Slots(heap[..last], slot - {removed}) && (slot - {removed}).Keys == (d - {removed}).Keys
         else
           && Slots(heap[..last][index := heap[last]], (slot - {removed})[heap[last] := index])
           && (slot - {removed})[heap[last] := index].Keys == (d - {removed}).Keys
  {
  }
}
