/** The C binding that hands out the counts of a job result as two parallel C arrays. */
module JobCounts {
  import opened Wrappers
  import opened Text
  import opened JobResults
  import opened CHeap

  type Heap0 = map<nat, Block>

  /** All entries, map by map. */
  function Entries(results: seq<CountMap>): seq<(string, nat)> {
    if results == [] then [] else Entries(results[..|results| - 1]) + results[|results| - 1]
  }

  lemma EntriesNext(results: seq<CountMap>, i: nat)
    requires i < |results|
    ensures Entries(results[..i + 1]) == Entries(results[..i]) + results[i]
  {
    assert results[..i + 1][..i] == results[..i];
  }

  lemma {:induction false} EntriesPrefix(results: seq<CountMap>, i: nat)
    requires i <= |results|
    ensures Entries(results[..i]) <= Entries(results)
    decreases |results| - i
  {
    if i == |results| {
      assert results[..i] == results;
    } else {
      EntriesPrefix(results, i + 1);
      EntriesNext(results, i);
    }
  }

  /** The bytes of a C string holding the given key. */
  function Terminated(key: string): string {
    key + "\0"
  }

  /** The counts as C integers. */
  function CountsArray(entries: seq<(string, nat)>): (r: seq<int>)
    ensures |r| == |entries|
  {
    seq(|entries|, i requires 0 <= i < |entries| => Int32(entries[i].1))
  }

  /** base with one string block for each of the first |addrs| entries. */
  function WithStrings(base: Heap0, addrs: seq<nat>, entries: seq<(string, nat)>): Heap0
    requires |addrs| <= |entries|
    decreases |addrs|
  {
    if addrs == [] then base
    else
      var k := |addrs| - 1;
      WithStrings(base, addrs[..k], entries)[addrs[k] := Bytes(Set(Terminated(entries[k].0)))]
  }

  /** The two arrays and the strings occupy addresses that were free, each its own. */
  predicate Fresh(base: Heap0, counts: nat, bits: nat, addrs: seq<nat>)
    decreases |addrs|
  {
    if addrs == [] then counts != bits && counts !in base && bits !in base
    else
      var k := |addrs| - 1;
      && addrs[k] !in base && addrs[k] != counts && addrs[k] != bits && addrs[k] !in addrs[..k]
      && Fresh(base, counts, bits, addrs[..k])
  }

  /** Beside the blocks of `base`, which are untouched, the heap holds the two arrays with their
      first |addrs| cells filled in and one string block for each of them, and nothing else. */
  ghost predicate Filled(base: Heap0, now: Heap0, counts: nat, bits: nat, addrs: seq<nat>,
                         entries: seq<(string, nat)>)
  {
    && |addrs| <= |entries| && Fresh(base, counts, bits, addrs)
    && now == WithStrings(base, addrs, entries)[bits := Ptrs(Slots(addrs, |entries|))]
                                               [counts := Ints(Partial(CountsArray(entries), |addrs|))]
  }

  lemma StartFilled(base: Heap0, counts: nat, bits: nat, entries: seq<(string, nat)>)
    requires counts !in base && bits !in base && counts != bits
    ensures var n := |entries|;
            Filled(base, base[counts := Ints(Unset(n))][bits := Ptrs(Unset(n))], counts, bits, [], entries)
  {
    var none: seq<nat> := [];
    PartialSteps(CountsArray(entries), 0);
    SlotsSteps(none, |entries|, 0);
    var ints, ptrs := Ints(Partial(CountsArray(entries), |none|)), Ptrs(Slots(none, |entries|));
    assert base[counts := ints][bits := ptrs] == base[bits := ptrs][counts := ints];
    assert ints == Ints(Unset(|entries|)) && ptrs == Ptrs(Unset(|entries|));
    assert Filled(base, base[counts := ints][bits := ptrs], counts, bits, none, entries);
  }

  function Elements(addrs: seq<nat>): set<nat> {
    set p | p in addrs
  }

  lemma AddressSet(addrs: seq<nat>, p: nat)
    ensures Elements(addrs + [p]) == Elements(addrs) + {p}
  {
  }

  lemma {:induction false} WithStringsKeys(base: Heap0, addrs: seq<nat>, entries: seq<(string, nat)>)
    requires |addrs| <= |entries|
    ensures WithStrings(base, addrs, entries).Keys == base.Keys + Elements(addrs)
    decreases |addrs|
  {
    if addrs == [] {
      assert Elements(addrs) == {};
    } else {
      var front, p := addrs[..|addrs| - 1], addrs[|addrs| - 1];
      WithStringsKeys(base, front, entries);
      AddressSet(front, p);
      assert front + [p] == addrs;
    }
  }

  lemma FilledKeys(base: Heap0, now: Heap0, counts: nat, bits: nat, addrs: seq<nat>, entries: seq<(string, nat)>)
    requires Filled(base, now, counts, bits, addrs, entries)
    ensures now.Keys == base.Keys + Elements(addrs) + {counts, bits}
  {
    WithStringsKeys(base, addrs, entries);
  }

  /** One round of the fill loop: a string block, its address and its count. */
  lemma FillNext(base: Heap0, now: Heap0, counts: nat, bits: nat, addrs: seq<nat>,
                 entries: seq<(string, nat)>, p: nat)
    requires Filled(base, now, counts, bits, addrs, entries) && |addrs| < |entries| && p !in now
    ensures var k := |addrs|;
            var cells := Partial(CountsArray(entries), k)[k := Some(Int32(entries[k].1))];
            var slots := Slots(addrs, |entries|)[k := Some(p)];
            Filled(base, now[p := Bytes(Set(Terminated(entries[k].0)))][bits := Ptrs(slots)][counts := Ints(cells)],
                   counts, bits, addrs + [p], entries)
  {
    var k := |addrs|;
    var more := addrs + [p];
    assert more[..k] == addrs;
    PartialSteps(CountsArray(entries), k);
    SlotsSteps(addrs, |entries|, p);
    FilledKeys(base, now, counts, bits, addrs, entries);
  }

  /** The addresses of the strings are distinct and none is that of an array or an old block. */
  lemma {:induction false} FreshAddress(base: Heap0, counts: nat, bits: nat, addrs: seq<nat>, i: nat)
    requires Fresh(base, counts, bits, addrs) && i < |addrs|
    ensures addrs[i] !in base && addrs[i] != counts && addrs[i] != bits && addrs[i] !in addrs[..i]
    ensures counts !in base && bits !in base && counts != bits
    decreases |addrs|
  {
    var k := |addrs| - 1;
    if i < k {
      FreshAddress(base, counts, bits, addrs[..k], i);
      assert addrs[..k][..i] == addrs[..i];
    } else if k > 0 {
      FreshAddress(base, counts, bits, addrs[..k], 0);
    }
  }

  lemma {:induction false} StringsRemoved(base: Heap0, counts: nat, bits: nat, addrs: seq<nat>,
                                          entries: seq<(string, nat)>)
    requires |addrs| <= |entries| && Fresh(base, counts, bits, addrs)
    ensures WithStrings(base, addrs, entries) - Elements(addrs) == base
    decreases |addrs|
  {
    if addrs == [] {
      assert Elements(addrs) == {};
    } else {
      var front, p := addrs[..|addrs| - 1], addrs[|addrs| - 1];
      StringsRemoved(base, counts, bits, front, entries);
      AddressSet(front, p);
      assert front + [p] == addrs;
      assert p !in Elements(front);
    }
  }

  /** Freeing the strings one by one, then both arrays, leaves exactly the old blocks. */
  lemma FreedAll(base: Heap0, now: Heap0, counts: nat, bits: nat, addrs: seq<nat>, entries: seq<(string, nat)>)
    requires Filled(base, now, counts, bits, addrs, entries)
    ensures now - Elements(addrs) - {bits} - {counts} == base
    ensures {bits, counts} <= (now - Elements(addrs)).Keys
  {
    StringsRemoved(base, counts, bits, addrs, entries);
    ArraysApart(base, counts, bits, addrs);
    FilledKeys(base, now, counts, bits, addrs, entries);
    var strings := WithStrings(base, addrs, entries);
    assert now - Elements(addrs) - {bits} - {counts} == strings - Elements(addrs);
  }

  lemma ArraysApart(base: Heap0, counts: nat, bits: nat, addrs: seq<nat>)
    requires Fresh(base, counts, bits, addrs)
    ensures counts != bits && counts !in base && bits !in base
    ensures counts !in Elements(addrs) && bits !in Elements(addrs) && Elements(addrs) !! base.Keys
  {
    forall i | 0 <= i < |addrs| ensures addrs[i] !in base && addrs[i] != counts && addrs[i] != bits {
      FreshAddress(base, counts, bits, addrs, i);
    }
    if addrs != [] {
      FreshAddress(base, counts, bits, addrs, 0);
    }
  }

  method FreeStrings(heap: Heap, ghost base: Heap0, counts: nat, bits: nat, ghost addrs: seq<nat>,
                     ghost entries: seq<(string, nat)>, index: nat)
    requires heap.Valid() && Filled(base, heap.blocks, counts, bits, addrs, entries) && index == |addrs|
    modifies heap`blocks
    ensures heap.Valid() && heap.blocks == old(heap.blocks) - Elements(addrs)
  {
    ArraysApart(base, counts, bits, addrs);
    FilledKeys(base, heap.blocks, counts, bits, addrs, entries);
    ghost var before: Heap0 := heap.blocks;
    for i := 0 to index
      invariant heap.Valid() && heap.blocks == before - Elements(addrs[..i])
    {
      FreshAddress(base, counts, bits, addrs, i);
      assert Elements(addrs[..i]) <= Elements(addrs);
      assert before[bits].slots[i] == Some(addrs[i]);
      var p := heap.LoadPtr(bits, i);
      heap.Free(p);
      AddressSet(addrs[..i], p);
      assert addrs[..i + 1] == addrs[..i] + [p];
    }
    assert addrs[..index] == addrs;
  }

  /** One entry of the fill loop. A failing malloc frees everything the call has allocated. */
  method StoreEntry(heap: Heap, ghost base: Heap0, counts: nat, bits: nat, ghost addrs: seq<nat>,
                    ghost entries: seq<(string, nat)>, index: nat, bitstream: string, count: nat)
    returns (p: nat)
    requires heap.Valid() && Filled(base, heap.blocks, counts, bits, addrs, entries)
    requires index == |addrs| < |entries| && entries[index] == (bitstream, count)
    modifies heap
    ensures heap.Valid() && heap.calls == old(heap.calls) + 1
    ensures p == 0 <==> heap.fails(old(heap.calls))
    ensures p == 0 ==> heap.blocks == base
    ensures p != 0 ==> Filled(base, heap.blocks, counts, bits, addrs + [p], entries)
  {
    ghost var before := heap.blocks;
    ArraysApart(base, counts, bits, addrs);
    FilledKeys(base, before, counts, bits, addrs, entries);
    p := heap.Malloc(Bytes(Unset(|bitstream| + 1)));
    if p == 0 {
      FreedAll(base, before, counts, bits, addrs, entries);
      FreeStrings(heap, base, counts, bits, addrs, entries, index);
      heap.Free(bits);
      heap.Free(counts);
      return;
    }
    heap.StorePtr(bits, index, p);
    heap.CopyText(p, Terminated(bitstream));
    heap.StoreInt(counts, index, Int32(count));
    FillNext(base, before, counts, bits, addrs, entries, p);
    StoresCommute(before, p, Bytes(Unset(|bitstream| + 1)), Bytes(Set(Terminated(bitstream))), bits,
                  Ptrs(Slots(addrs, |entries|)[index := Some(p)]), counts,
                  Ints(Partial(CountsArray(entries), index)[index := Some(Int32(count))]));
  }

  lemma StoresCommute(m: Heap0, p: nat, b0: Block, b1: Block, bits: nat, slots: Block, counts: nat, cells: Block)
    requires p != bits && p != counts && bits != counts
    ensures m[p := b0][bits := slots][p := b1][counts := cells] == m[p := b1][bits := slots][counts := cells]
  {
  }

  /** All mallocs from the given call on succeed, n of them. */
  ghost predicate AllSucceed(fails: nat -> bool, first: nat, n: nat) {
    forall i :: first <= i < first + n ==> !fails(i)
  }

  /** The inner loop: the entries of one map, from position |addrs| of the arrays on. */
  method StoreMap(heap: Heap, ghost base: Heap0, counts: nat, bits: nat, ghost addrs: seq<nat>,
                  ghost entries: seq<(string, nat)>, start: nat, m: CountMap)
    returns (ok: bool, index: nat, ghost more: seq<nat>)
    requires heap.Valid() && Filled(base, heap.blocks, counts, bits, addrs, entries) && start == |addrs|
    requires start + |m| <= |entries| && entries[start..start + |m|] == m
    modifies heap
    ensures heap.Valid()
    ensures ok <==> AllSucceed(heap.fails, old(heap.calls), |m|)
    ensures ok ==> index == |more| == start + |m| && heap.calls == old(heap.calls) + |m|
    ensures ok ==> Filled(base, heap.blocks, counts, bits, more, entries)
    ensures !ok ==> heap.blocks == base
  {
    ghost var first := heap.calls;
    more := addrs;
    for j := 0 to |m|
      invariant heap.Valid() && |more| == start + j && heap.calls == first + j
      invariant Filled(base, heap.blocks, counts, bits, more, entries)
      invariant AllSucceed(heap.fails, first, j)
    {
      assert m[j] == entries[start + j];
      var p := StoreEntry(heap, base, counts, bits, more, entries, start + j, m[j].0, m[j].1);
      if p == 0 {
        assert heap.fails(first + j);
        return false, 0, [];
      }
      more := more + [p];
    }
    return true, start + |m|, more;
  }

  lemma SucceedOn(fails: nat -> bool, first: nat, k: nat, n: nat)
    requires AllSucceed(fails, first, k)
    ensures AllSucceed(fails, first, k + n) <==> AllSucceed(fails, first + k, n)
    ensures forall j :: k + n <= j && !AllSucceed(fails, first + k, n) ==> !AllSucceed(fails, first, j)
  {
    if !AllSucceed(fails, first + k, n) {
      var i :| first + k <= i < first + k + n && fails(i);
    }
  }

  method FillArrays(heap: Heap, ghost base: Heap0, counts: nat, bits: nat, results: seq<CountMap>)
    returns (ok: bool, ghost addrs: seq<nat>)
    requires heap.Valid() && Filled(base, heap.blocks, counts, bits, [], Entries(results))
    modifies heap
    ensures heap.Valid()
    ensures ok <==> AllSucceed(heap.fails, old(heap.calls), |Entries(results)|)
    ensures !ok ==> heap.blocks == base
    ensures ok ==> |addrs| == |Entries(results)| && Filled(base, heap.blocks, counts, bits, addrs, Entries(results))
    ensures ok ==> HandedOut(heap.blocks, counts, bits, addrs, Entries(results))
  {
    ghost var entries, first := Entries(results), heap.calls;
    addrs := [];
    var index := 0;
    for i := 0 to |results|
      invariant heap.Valid() && index == |addrs| == |Entries(results[..i])|
      invariant Filled(base, heap.blocks, counts, bits, addrs, entries)
      invariant heap.calls == first + index && AllSucceed(heap.fails, first, index)
    {
      MapRange(results, i);
      SucceedOn(heap.fails, first, index, |results[i]|);
      ok, index, addrs := StoreMap(heap, base, counts, bits, addrs, entries, index, results[i]);
      if !ok {
        return;
      }
      EntriesNext(results, i);
    }
    assert results[..|results|] == results;
    FilledIsHandedOut(base, heap.blocks, counts, bits, addrs, entries);
    return true, addrs;
  }

  /** The entries of the i-th map are a stretch of all entries. */
  lemma MapRange(results: seq<CountMap>, i: nat)
    requires i < |results|
    ensures var start := |Entries(results[..i])|;
            start + |results[i]| <= |Entries(results)| && Entries(results)[start..start + |results[i]|] == results[i]
  {
    EntriesNext(results, i);
    EntriesPrefix(results, i + 1);
  }

  /** How many entries the maps have together. */
  function Sizes(results: seq<CountMap>): nat {
    if results == [] then 0 else Sizes(results[..|results| - 1]) + |results[|results| - 1]|
  }

  lemma {:induction false} EntriesSize(results: seq<CountMap>)
    ensures |Entries(results)| == Sizes(results)
  {
    if results != [] {
      EntriesSize(results[..|results| - 1]);
    }
  }

  /** The j-th entry of the i-th map comes after all entries of the maps before it and the j
      entries before it in its own. */
  lemma EntryAt(results: seq<CountMap>, i: nat, j: nat)
    requires i < |results| && j < |results[i]|
    ensures var at := Sizes(results[..i]) + j;
            at < |Entries(results)| == Sizes(results) && Entries(results)[at] == results[i][j]
  {
    EntriesSize(results);
    EntriesSize(results[..i]);
    MapRange(results, i);
    var start := |Entries(results[..i])|;
    assert Entries(results)[start..start + |results[i]|][j] == Entries(results)[start + j];
  }

  /** The first pass. */
  method CountEntries(results: seq<CountMap>) returns (totalEntries: nat)
    ensures totalEntries == |Entries(results)|
  {
    totalEntries := 0;
    for i := 0 to |results|
      invariant totalEntries == |Entries(results[..i])|
    {
      EntriesNext(results, i);
      totalEntries := totalEntries + |results[i]|;
    }
    assert results[..|results|] == results;
  }

  /** What a C caller reads: the i-th count as an int, and behind the i-th pointer a string that
      ends where the i-th key does, or at a null character in it. */
  ghost predicate HandedOut(now: Heap0, counts: nat, bits: nat, addrs: seq<nat>, entries: seq<(string, nat)>) {
    && counts in now && now[counts].Ints? && |now[counts].cells| == |entries|
    && bits in now && now[bits].Ptrs? && |now[bits].slots| == |entries| == |addrs|
    && (forall i :: 0 <= i < |entries| && entries[i].1 <= 2147483647 ==>
          now[counts].cells[i] == Some(entries[i].1))
    && (forall i :: 0 <= i < |entries| ==>
          now[bits].slots[i] == Some(addrs[i]) && addrs[i] in now && now[addrs[i]].Bytes?
          && |now[addrs[i]].chars| == |entries[i].0| + 1)
    && (forall i, n: nat :: 0 <= i < |entries| && FirstNull(entries[i].0, n) ==>
          addrs[i] in now && ReadsAs(now[addrs[i]], entries[i].0[..n]))
  }

  lemma FilledIsHandedOut(base: Heap0, now: Heap0, counts: nat, bits: nat, addrs: seq<nat>,
                          entries: seq<(string, nat)>)
    requires Filled(base, now, counts, bits, addrs, entries) && |addrs| == |entries|
    ensures HandedOut(now, counts, bits, addrs, entries)
  {
    FilledMeans(base, now, counts, bits, addrs, entries);
    forall i, n: nat | 0 <= i < |entries| && FirstNull(entries[i].0, n)
      ensures addrs[i] in now && ReadsAs(now[addrs[i]], entries[i].0[..n])
    {
      NullEndsText(entries[i].0, n);
    }
  }

  /** The second part of GetJobResultCounts, for a result with entries: both arrays are allocated and
      filled, or everything is freed again. */
  method StoreCounts(heap: Heap, bitstreams: PtrCell, counts: PtrCell, results: seq<CountMap>, totalEntries: nat)
    returns (code: int, ghost addrs: seq<nat>)
    requires heap.Valid() && bitstreams != counts && totalEntries == |Entries(results)|
    modifies heap, bitstreams, counts
    ensures heap.Valid() && (code == 0 || code == -1)
    ensures code == 0 <==> AllSucceed(heap.fails, old(heap.calls), totalEntries + 2)
    ensures code == 0 ==>
              && |addrs| == totalEntries
              && Filled(old(heap.blocks), heap.blocks, counts.value, bitstreams.value, addrs, Entries(results))
              && HandedOut(heap.blocks, counts.value, bitstreams.value, addrs, Entries(results))
    ensures code == -1 ==> heap.blocks == old(heap.blocks)
  {
    ghost var entries, base, first := Entries(results), heap.blocks, heap.calls;
    counts.value := heap.Malloc(Ints(Unset(totalEntries)));
    bitstreams.value := heap.Malloc(Ptrs(Unset(totalEntries)));
    if counts.value == 0 || bitstreams.value == 0 {
      assert heap.fails(first) || heap.fails(first + 1);
      heap.Free(counts.value);
      heap.Free(bitstreams.value);
      return -1, [];
    }
    StartFilled(base, counts.value, bitstreams.value, entries);
    var ok;
    ok, addrs := FillArrays(heap, base, counts.value, bitstreams.value, results);
    SucceedFrom(heap.fails, first, |entries|);
    code := if ok then 0 else -1;
  }

  /** Variables of different C types never share storage. */
  method GetJobResultCounts(heap: Heap, jobResult: Option<JobResult>, bitstreams: PtrCell?,
                            counts: PtrCell?, size: IntCell?)
    returns (code: int, ghost addrs: seq<nat>)
    requires heap.Valid() && (bitstreams != null ==> bitstreams != counts)
    modifies heap, bitstreams, counts, size
    ensures heap.Valid() && (code == 0 || code == -1)
    ensures jobResult.None? || bitstreams == null || counts == null || size == null ==>
              code == -1 && heap.calls == old(heap.calls)
    ensures jobResult.Some? && bitstreams != null && counts != null && size != null ==>
              var entries := Entries(jobResult.value.results);
              && size.value == Int32(|entries|)
              && (code == 0 <==> entries == [] || AllSucceed(heap.fails, old(heap.calls), |entries| + 2))
              && (code == 0 && entries == [] ==>
                    heap.blocks == old(heap.blocks) && bitstreams.value == 0 && counts.value == 0)
              && (code == 0 && entries != [] ==>
                    |addrs| == |entries| &&
                    Filled(old(heap.blocks), heap.blocks, counts.value, bitstreams.value, addrs, entries) &&
                    HandedOut(heap.blocks, counts.value, bitstreams.value, addrs, entries))
    ensures code == -1 ==> heap.blocks == old(heap.blocks)
  {
    if jobResult.None? || bitstreams == null || counts == null || size == null {
      return -1, [];
    }
    var results := jobResult.value.results;
    var totalEntries := CountEntries(results);
    size.value := Int32(totalEntries);
    if totalEntries == 0 {
      bitstreams.value := 0;
      counts.value := 0;
      return 0, [];
    }

    code, addrs := StoreCounts(heap, bitstreams, counts, results, totalEntries);
  }

  lemma SucceedFrom(fails: nat -> bool, first: nat, n: nat)
    requires !fails(first) && !fails(first + 1)
    ensures AllSucceed(fails, first, n + 2) <==> AllSucceed(fails, first + 2, n)
  {
  }

  // ------------------------------------------------------------ what the caller gets

  lemma {:induction false} DistinctAddresses(base: Heap0, counts: nat, bits: nat, addrs: seq<nat>)
    requires Fresh(base, counts, bits, addrs)
    ensures |Elements(addrs)| == |addrs|
    decreases |addrs|
  {
    if addrs == [] {
      assert Elements(addrs) == {};
    } else {
      var front, p := addrs[..|addrs| - 1], addrs[|addrs| - 1];
      DistinctAddresses(base, counts, bits, front);
      AddressSet(front, p);
      assert front + [p] == addrs && p !in Elements(front);
    }
  }

  lemma {:induction false} StringAt(base: Heap0, counts: nat, bits: nat, addrs: seq<nat>,
                                    entries: seq<(string, nat)>, i: nat)
    requires |addrs| <= |entries| && Fresh(base, counts, bits, addrs) && i < |addrs|
    ensures addrs[i] in WithStrings(base, addrs, entries)
    ensures WithStrings(base, addrs, entries)[addrs[i]] == Bytes(Set(Terminated(entries[i].0)))
    decreases |addrs|
  {
    var k := |addrs| - 1;
    if i < k {
      StringAt(base, counts, bits, addrs[..k], entries, i);
      assert addrs[..k][i] == addrs[i];
    }
  }

  lemma {:induction false} OldBlocksKept(base: Heap0, counts: nat, bits: nat, addrs: seq<nat>,
                                         entries: seq<(string, nat)>)
    requires |addrs| <= |entries| && Fresh(base, counts, bits, addrs)
    ensures forall p :: p in base ==>
              p in WithStrings(base, addrs, entries) && WithStrings(base, addrs, entries)[p] == base[p]
    decreases |addrs|
  {
    if addrs != [] {
      OldBlocksKept(base, counts, bits, addrs[..|addrs| - 1], entries);
    }
  }

  /** What a successful call hands out: old blocks untouched, one block more for each entry and
      two for the arrays, and arrays that read back as the entries of all maps in order. */
  lemma FilledMeans(base: Heap0, now: Heap0, counts: nat, bits: nat, addrs: seq<nat>, entries: seq<(string, nat)>)
    requires Filled(base, now, counts, bits, addrs, entries) && |addrs| == |entries|
    ensures forall p :: p in base ==> p in now && now[p] == base[p]
    ensures |now| == |base| + |entries| + 2
    ensures counts in now && now[counts] == Ints(Set(CountsArray(entries)))
    ensures bits in now && now[bits] == Ptrs(Set(addrs))
    ensures forall i :: 0 <= i < |addrs| ==>
              addrs[i] !in base && addrs[i] in now && now[addrs[i]] == Bytes(Set(Terminated(entries[i].0)))
  {
    ArraysApart(base, counts, bits, addrs);
    OldBlocksKept(base, counts, bits, addrs, entries);
    forall i | 0 <= i < |addrs|
      ensures addrs[i] !in base && addrs[i] in now && now[addrs[i]] == Bytes(Set(Terminated(entries[i].0)))
    {
      StringAt(base, counts, bits, addrs, entries, i);
      FreshAddress(base, counts, bits, addrs, i);
    }
    FilledKeys(base, now, counts, bits, addrs, entries);
    DistinctAddresses(base, counts, bits, addrs);
    Adding(base.Keys, Elements(addrs), counts, bits);
    PartialSteps(CountsArray(entries), 0);
    SlotsSteps(addrs, |entries|, 0);
  }

  lemma Adding(a: set<nat>, b: set<nat>, x: nat, y: nat)
    requires a !! b && x !in a + b && y !in a + b && x != y
    ensures |a + b + {x, y}| == |a| + |b| + 2
  {
    assert |a + b| == |a| + |b|;
    assert a + b + {x, y} == (a + b + {x}) + {y};
  }

  function MapSum(m: CountMap): nat {
    if m == [] then 0 else MapSum(m[..|m| - 1]) + m[|m| - 1].1
  }

  function AllSum(results: seq<CountMap>): nat {
    if results == [] then 0 else AllSum(results[..|results| - 1]) + MapSum(results[|results| - 1])
  }

  function IntSum(s: seq<int>): int {
    if s == [] then 0 else IntSum(s[..|s| - 1]) + s[|s| - 1]
  }

  lemma {:induction false} MapSumConcat(a: CountMap, b: CountMap)
    ensures MapSum(a + b) == MapSum(a) + MapSum(b)
  {
    if b == [] {
      assert a + b == a;
    } else {
      assert (a + b)[..|a + b| - 1] == a + b[..|b| - 1];
      MapSumConcat(a, b[..|b| - 1]);
    }
  }

  lemma {:induction false} EntriesSum(results: seq<CountMap>)
    ensures MapSum(Entries(results)) == AllSum(results)
  {
    if results != [] {
      EntriesSum(results[..|results| - 1]);
      MapSumConcat(Entries(results[..|results| - 1]), results[|results| - 1]);
    }
  }

  lemma {:induction false} ArraySum(entries: seq<(string, nat)>)
    requires forall i :: 0 <= i < |entries| ==> entries[i].1 <= INT_MAX
    ensures IntSum(CountsArray(entries)) == MapSum(entries)
  {
    if entries != [] {
      var front := entries[..|entries| - 1];
      ArraySum(front);
      assert CountsArray(entries)[..|entries| - 1] == CountsArray(front);
    }
  }

  /** No shot is lost in flattening: the counts handed out add up to the counts of all maps. */
  lemma FlatteningKeepsTotal(results: seq<CountMap>)
    requires forall i :: 0 <= i < |Entries(results)| ==> Entries(results)[i].1 <= INT_MAX
    ensures IntSum(CountsArray(Entries(results))) == AllSum(results)
  {
    ArraySum(Entries(results));
    EntriesSum(results);
  }
}
