/** The C bindings that hand out a resource and its gates as C memory. */
module ResourceInfo {
  import opened Wrappers
  import opened Text
  import opened ResourceParser
  import opened CHeap

  datatype Resource = Resource(name: string, qubitCount: nat, online: bool,
                               couplingMap: seq<seq<int>>, nativeGateset: seq<Gate>)

  /** All rows one after the other. */
  function Flat(rows: seq<seq<int>>): seq<int> {
    if rows == [] then [] else Flat(rows[..|rows| - 1]) + rows[|rows| - 1]
  }

  function Casts(values: seq<int>): (r: seq<int>)
    ensures |r| == |values|
  {
    seq(|values|, i requires 0 <= i < |values| => Int32(values[i]))
  }

  lemma FlatNext(rows: seq<seq<int>>, i: nat)
    requires i < |rows|
    ensures Flat(rows[..i + 1]) == Flat(rows[..i]) + rows[i]
  {
    assert rows[..i + 1][..i] == rows[..i];
  }

  lemma {:induction false} FlatPrefix(rows: seq<seq<int>>, i: nat)
    requires i <= |rows|
    ensures Flat(rows[..i]) <= Flat(rows)
    decreases |rows| - i
  {
    if i == |rows| {
      assert rows[..i] == rows;
    } else {
      FlatPrefix(rows, i + 1);
      FlatNext(rows, i);
    }
  }

  lemma FlatAt(rows: seq<seq<int>>, i: nat, j: nat)
    requires i < |rows| && j < |rows[i]|
    ensures |Flat(rows[..i])| + j < |Flat(rows)| && Flat(rows)[|Flat(rows[..i])| + j] == rows[i][j]
  {
    FlatNext(rows, i);
    FlatPrefix(rows, i + 1);
    assert (Flat(rows[..i]) + rows[i])[|Flat(rows[..i])| + j] == rows[i][j];
  }

  method TotalSize(input: seq<seq<int>>) returns (total: nat)
    ensures total == |Flat(input)|
  {
    total := 0;
    for i := 0 to |input|
      invariant total == |Flat(input[..i])|
    {
      FlatNext(input, i);
      total := total + |input[i]|;
    }
    assert input[..|input|] == input;
  }

  /** malloc fails: null. Otherwise a new array that holds all rows one after the other. */
  method Flatten2D(heap: Heap, input: seq<seq<int>>, count: IntCell?) returns (result: nat)
    requires heap.Valid()
    modifies heap, count
    ensures heap.Valid()
    ensures count == null ==> result == 0 && heap.calls == old(heap.calls)
    ensures count != null ==> heap.calls == old(heap.calls) + 1
    ensures count != null ==> (result == 0 <==> heap.fails(old(heap.calls)))
    ensures result == 0 ==> heap.blocks == old(heap.blocks)
    ensures result != 0 ==>
              result !in old(heap.blocks) && count.value == Uint32(|Flat(input)|) &&
              heap.blocks == old(heap.blocks)[result := Ints(Set(Casts(Flat(input))))]
  {
    if count == null {
      return 0;
    }
    ghost var values, base := Casts(Flat(input)), heap.blocks;
    var total := TotalSize(input);
    result := heap.Malloc(Ints(Unset(total)));
    if result == 0 {
      return;
    }
    PartialSteps(values, 0);
    var index := 0;
    for i := 0 to |input|
      modifies heap`blocks
      invariant heap.Valid() && index == |Flat(input[..i])|
      invariant heap.blocks == base[result := Ints(Partial(values, index))]
    {
      for j := 0 to |input[i]|
        modifies heap`blocks
        invariant heap.Valid() && index == |Flat(input[..i])| + j
        invariant heap.blocks == base[result := Ints(Partial(values, index))]
      {
        FlatAt(input, i, j);
        heap.StoreInt(result, index, Int32(input[i][j]));
        PartialSteps(values, index);
        index := index + 1;
      }
      FlatNext(input, i);
    }
    PartialSteps(values, 0);
    assert input[..|input|] == input;
    count.value := Uint32(total);
  }

  /** What "%s" prints of a text: the part before the first null character. */
  function CString(s: string): string {
    s[..Span(c => c != '\0', s)]
  }

  function NameBlock(text: string): Block {
    Bytes(Set(text + "\0"))
  }

  /** asprintf(out, "%s", text): true, or false with *out left unspecified. */
  method Asprintf(heap: Heap, out: PtrCell, text: string) returns (ok: bool)
    requires heap.Valid()
    modifies heap, out
    ensures heap.Valid() && heap.calls == old(heap.calls) + 1
    ensures ok <==> !heap.fails(old(heap.calls))
    ensures !ok ==> heap.blocks == old(heap.blocks)
    ensures ok ==> out.value != 0 && out.value !in old(heap.blocks)
                   && heap.blocks == old(heap.blocks)[out.value := NameBlock(CString(text))]
  {
    var chars := CString(text) + "\0";
    var p := heap.Malloc(Bytes(Unset(|chars|)));
    if p == 0 {
      out.value := *;
      return false;
    }
    heap.CopyText(p, chars);
    out.value := p;
    return true;
  }

  function GateObjects(base: map<nat, Block>, addrs: seq<nat>, gates: seq<Gate>): map<nat, Block>
    requires |addrs| <= |gates|
    decreases |addrs|
  {
    if addrs == [] then base
    else
      var k := |addrs| - 1;
      GateObjects(base, addrs[..k], gates)[addrs[k] := Object(gates[k])]
  }

  /** Each address was free when it was taken. */
  predicate NewAddresses(base: map<nat, Block>, addrs: seq<nat>) {
    && (forall i :: 0 <= i < |addrs| ==> addrs[i] !in base)
    && (forall i, j :: 0 <= i < j < |addrs| ==> addrs[i] != addrs[j])
  }

  lemma {:induction false} GateObjectsKeys(base: map<nat, Block>, addrs: seq<nat>, gates: seq<Gate>)
    requires |addrs| <= |gates|
    ensures forall p :: p in GateObjects(base, addrs, gates) <==> p in base || p in addrs
    ensures NewAddresses(base, addrs) ==>
              forall p :: p in base ==> GateObjects(base, addrs, gates)[p] == base[p]
    decreases |addrs|
  {
    if addrs != [] {
      GateObjectsKeys(base, addrs[..|addrs| - 1], gates);
      assert addrs == addrs[..|addrs| - 1] + [addrs[|addrs| - 1]];
    }
  }

  lemma GateObjectsSnoc(base: map<nat, Block>, addrs: seq<nat>, gates: seq<Gate>, p: nat)
    requires |addrs| < |gates|
    ensures GateObjects(base, addrs + [p], gates) == GateObjects(base, addrs, gates)[p := Object(gates[|addrs|])]
  {
    assert (addrs + [p])[..|addrs|] == addrs;
  }

  lemma NextGate(base: map<nat, Block>, addrs: seq<nat>, gates: seq<Gate>, p: nat)
    requires |addrs| < |gates| && NewAddresses(base, addrs) && p !in GateObjects(base, addrs, gates)
    ensures NewAddresses(base, addrs + [p])
    ensures GateObjects(base, addrs + [p], gates) == GateObjects(base, addrs, gates)[p := Object(gates[|addrs|])]
  {
    GateObjectsKeys(base, addrs, gates);
    GateObjectsSnoc(base, addrs, gates, p);
  }

  /** The loop that fills the array of gate handles, one new object for each gate. */
  method FillGates(heap: Heap, table: nat, gates: seq<Gate>) returns (ghost addrs: seq<nat>)
    requires heap.Valid() && table in heap.blocks && heap.blocks[table] == Ptrs(Unset(|gates|))
    modifies heap`blocks
    ensures heap.Valid() && |addrs| == |gates| && NewAddresses(old(heap.blocks), addrs)
    ensures heap.blocks == GateObjects(old(heap.blocks), addrs, gates)[table := Ptrs(Set(addrs))]
  {
    ghost var base := heap.blocks;
    addrs := [];
    SlotsSteps(addrs, |gates|, 0);
    assert base[table] == Ptrs(Slots(addrs, |gates|));
    for i := 0 to |gates|
      invariant heap.Valid() && |addrs| == i && NewAddresses(base, addrs)
      invariant heap.blocks == GateObjects(base, addrs, gates)[table := Ptrs(Slots(addrs, |gates|))]
    {
      GateObjectsKeys(base, addrs, gates);
      var p := heap.New(Object(gates[i]));
      heap.StorePtr(table, i, p);
      NextGate(base, addrs, gates, p);
      SlotsSteps(addrs, |gates|, p);
      addrs := addrs + [p];
    }
    SlotsSteps(addrs, |gates|, 0);
  }

  /** The array of gate handles and the gates behind it, or null. */
  method GiveGates(heap: Heap, out: PtrCell, gates: seq<Gate>) returns (ghost addrs: seq<nat>)
    requires heap.Valid()
    modifies heap, out
    ensures heap.Valid()
    ensures out.value == 0 <==> heap.fails(old(heap.calls))
    ensures out.value == 0 ==> heap.blocks == old(heap.blocks)
    ensures out.value != 0 ==> GatesGiven(old(heap.blocks), heap.blocks, out.value, gates, addrs)
  {
    addrs := [];
    out.value := heap.Malloc(Ptrs(Unset(|gates|)));
    if out.value != 0 {
      addrs := FillGates(heap, out.value, gates);
    }
  }

  ghost predicate GatesGiven(base: map<nat, Block>, now: map<nat, Block>, table: nat, gates: seq<Gate>,
                             addrs: seq<nat>)
  {
    var listed := base[table := Ptrs(Unset(|gates|))];
    && table !in base && |addrs| == |gates| && NewAddresses(listed, addrs)
    && now == GateObjects(listed, addrs, gates)[table := Ptrs(Set(addrs))]
  }

  /** The heap with name and coupling map beside the old blocks. */
  function WithNameAndMap(base: map<nat, Block>, r: Resource, name: nat, coupling: nat): map<nat, Block> {
    base[name := NameBlock(CString(r.name))][coupling := Ints(Set(Casts(Flat(r.couplingMap))))]
  }

  predicate NewNameAndMap(base: map<nat, Block>, name: nat, coupling: nat) {
    name != 0 && name !in base && coupling != 0 && coupling !in base && coupling != name
  }

  /** The heap after a successful call: name, coupling map, gate array and gate objects beside
      the old blocks. */
  ghost predicate InfoBlocks(base: map<nat, Block>, now: map<nat, Block>, r: Resource, name: nat,
                             coupling: nat, gateset: nat, addrs: seq<nat>)
  {
    && NewNameAndMap(base, name, coupling)
    && GatesGiven(WithNameAndMap(base, r, name, coupling), now, gateset, r.nativeGateset, addrs)
  }

  /** The first part of GetInfo: name, numbers and coupling map, or everything freed again. */
  method FillNameAndMap(heap: Heap, r: Resource, name: PtrCell, qubitCount: IntCell, online: BoolCell,
                        couplingMap: PtrCell, couplingMapSize: IntCell) returns (code: int)
    requires heap.Valid() && name != couplingMap && qubitCount != couplingMapSize
    modifies heap, name, qubitCount, online, couplingMap, couplingMapSize
    ensures heap.Valid()
    ensures code == if heap.fails(old(heap.calls)) then -3 else if heap.fails(old(heap.calls) + 1) then -4 else 0
    ensures code != 0 ==> heap.blocks == old(heap.blocks)
    ensures code == -4 ==> name.value == 0 && couplingMap.value == 0
    ensures code == 0 ==>
              && heap.calls == old(heap.calls) + 2
              && NewNameAndMap(old(heap.blocks), name.value, couplingMap.value)
              && heap.blocks == WithNameAndMap(old(heap.blocks), r, name.value, couplingMap.value)
              && qubitCount.value == r.qubitCount && online.value == r.online
              && couplingMapSize.value == Uint32(|Flat(r.couplingMap)|)
  {
    var printed := Asprintf(heap, name, r.name);
    if !printed {
      return -3;
    }
    qubitCount.value := r.qubitCount;
    online.value := r.online;

    couplingMap.value := Flatten2D(heap, r.couplingMap, couplingMapSize);
    if couplingMap.value == 0 {
      heap.Free(name.value);
      name.value := 0;
      return -4;
    }
    return 0;
  }

  /** Variables behind out-parameters of the same type are distinct; those of different C types
      never share storage. */
  method GetInfo(heap: Heap, resource: Option<Resource>, name: PtrCell?, qubitCount: IntCell?, online: BoolCell?,
                 couplingMap: PtrCell?, couplingMapSize: IntCell?, nativeGateset: PtrCell?, gateCount: IntCell?)
    returns (code: int, ghost addrs: seq<nat>)
    requires heap.Valid()
    requires name != null ==> name != couplingMap && name != nativeGateset
    requires couplingMap != null ==> couplingMap != nativeGateset
    requires qubitCount != null ==> qubitCount != couplingMapSize && qubitCount != gateCount
    requires couplingMapSize != null ==> couplingMapSize != gateCount
    modifies heap, name, qubitCount, online, couplingMap, couplingMapSize, nativeGateset, gateCount
    ensures heap.Valid()
    ensures code == -1 <==> name == null || qubitCount == null || online == null || couplingMap == null ||
                            couplingMapSize == null || nativeGateset == null || gateCount == null
    ensures code != -1 ==>
              code == if resource.None? then -2
                      else if heap.fails(old(heap.calls)) then -3
                      else if heap.fails(old(heap.calls) + 1) then -4
                      else if heap.fails(old(heap.calls) + 2) then -5
                      else 0
    ensures code != 0 ==> heap.blocks == old(heap.blocks)
    ensures code == -4 || code == -5 ==> name.value == 0 && couplingMap.value == 0
    ensures code == -5 ==> nativeGateset.value == 0
    ensures code == 0 ==>
              var r := resource.value;
              && InfoBlocks(old(heap.blocks), heap.blocks, r, name.value, couplingMap.value, nativeGateset.value, addrs)
              && qubitCount.value == r.qubitCount && online.value == r.online
              && couplingMapSize.value == Uint32(|Flat(r.couplingMap)|)
              && gateCount.value == Uint32(|r.nativeGateset|)
  {
    addrs := [];
    if name == null || qubitCount == null || online == null || couplingMap == null ||
       couplingMapSize == null || nativeGateset == null || gateCount == null {
      return -1, [];
    }
    if resource.None? {
      return -2, [];
    }
    var r := resource.value;
    code := FillNameAndMap(heap, r, name, qubitCount, online, couplingMap, couplingMapSize);
    if code != 0 {
      return code, [];
    }

    gateCount.value := Uint32(|r.nativeGateset|);
    addrs := GiveGates(heap, nativeGateset, r.nativeGateset);
    if nativeGateset.value == 0 {
      heap.Free(couplingMap.value);
      couplingMap.value := 0;
      heap.Free(name.value);
      name.value := 0;
      return -5, [];
    }
    return 0, addrs;
  }

  /** Same conventions as GetInfo. */
  method GetGateInfo(heap: Heap, gate: Option<Gate>, name: PtrCell?, qubitNumber: IntCell?,
                     parameterNumber: IntCell?, supportedQubits: PtrCell?, supportedQubitCount: IntCell?)
    returns (code: int)
    requires heap.Valid()
    requires name != null ==> name != supportedQubits
    requires qubitNumber != null ==> qubitNumber != parameterNumber && qubitNumber != supportedQubitCount
    requires parameterNumber != null ==> parameterNumber != supportedQubitCount
    modifies heap, name, qubitNumber, parameterNumber, supportedQubits, supportedQubitCount
    ensures heap.Valid()
    ensures code == -1 <==> gate.None? || name == null || qubitNumber == null || parameterNumber == null ||
                            supportedQubits == null || supportedQubitCount == null
    ensures code != -1 ==> code == if heap.fails(old(heap.calls)) || heap.fails(old(heap.calls) + 1) then -2 else 0
    ensures code != 0 ==> heap.blocks == old(heap.blocks)
    ensures code == -2 ==> name.value == 0
    ensures code == 0 ==>
              var g := gate.value;
              && name.value !in old(heap.blocks) && supportedQubits.value !in old(heap.blocks)
              && name.value != supportedQubits.value
              && heap.blocks == old(heap.blocks)[name.value := NameBlock(g.name)]
                                [supportedQubits.value := Ints(Set(Casts(Flat(g.supportedQubits))))]
              && (forall n: nat :: FirstNull(g.name, n) ==> ReadsAs(heap.blocks[name.value], g.name[..n]))
              && qubitNumber.value == g.qubitNumber && parameterNumber.value == g.parameterNumber
              && supportedQubitCount.value == Uint32(|Flat(g.supportedQubits)|)
  {
    if gate.None? || name == null || qubitNumber == null || parameterNumber == null ||
       supportedQubits == null || supportedQubitCount == null {
      return -1;
    }
    var g := gate.value;
    var chars := g.name + "\0";
    name.value := heap.Malloc(Bytes(Unset(|chars|)));
    if name.value == 0 {
      return -2;
    }
    heap.CopyText(name.value, chars);
    CopiedNameReads(g.name);
    qubitNumber.value := g.qubitNumber;
    parameterNumber.value := g.parameterNumber;
    supportedQubits.value := Flatten2D(heap, g.supportedQubits, supportedQubitCount);
    if supportedQubits.value == 0 {
      heap.Free(name.value);
      name.value := 0;
      return -2;
    }
    return 0;
  }

  // ------------------------------------------------------------ what the caller gets

  lemma {:induction false} GateObjectsMean(base: map<nat, Block>, addrs: seq<nat>, gates: seq<Gate>)
    requires |addrs| <= |gates| && NewAddresses(base, addrs)
    ensures |GateObjects(base, addrs, gates)| == |base| + |addrs|
    ensures forall i :: 0 <= i < |addrs| ==>
              && addrs[i] in GateObjects(base, addrs, gates)
              && GateObjects(base, addrs, gates)[addrs[i]] == Object(gates[i])
    decreases |addrs|
  {
    if addrs != [] {
      var k := |addrs| - 1;
      var front := addrs[..k];
      GateObjectsMean(base, front, gates);
      GateObjectsKeys(base, front, gates);
      assert addrs[k] !in GateObjects(base, front, gates);
      forall i | 0 <= i < k ensures GateObjects(base, addrs, gates)[addrs[i]] == Object(gates[i]) {
        assert front[i] == addrs[i];
      }
    }
  }

  lemma GatesGivenMean(base: map<nat, Block>, now: map<nat, Block>, table: nat, gates: seq<Gate>, addrs: seq<nat>)
    requires GatesGiven(base, now, table, gates, addrs)
    ensures |now| == |base| + 1 + |gates|
    ensures forall p :: p in base ==> p in now && now[p] == base[p]
    ensures table in now && now[table] == Ptrs(Set(addrs)) && |addrs| == |gates|
    ensures forall i :: 0 <= i < |addrs| ==> addrs[i] in now && now[addrs[i]] == Object(gates[i])
  {
    var listed := base[table := Ptrs(Unset(|gates|))];
    var objects := GateObjects(listed, addrs, gates);
    GateObjectsKeys(listed, addrs, gates);
    GateObjectsMean(listed, addrs, gates);
    assert table in listed && table !in addrs;
    assert |listed| == |base| + 1;
    Overwrite(objects, table, Ptrs(Set(addrs)));
  }

  lemma Overwrite(m: map<nat, Block>, p: nat, b: Block)
    requires p in m
    ensures |m[p := b]| == |m|
  {
    assert m[p := b].Keys == m.Keys;
    assert |m[p := b]| == |m[p := b].Keys| && |m| == |m.Keys|;
  }

  /** Success adds exactly three blocks and one for each gate; old blocks are untouched; and what
      the handed-out pointers lead to is the resource: its name up to a null character, its
      coupling map row by row, and its gates in order. */
  lemma InfoMeans(base: map<nat, Block>, now: map<nat, Block>, r: Resource, name: nat,
                  coupling: nat, gateset: nat, addrs: seq<nat>)
    requires InfoBlocks(base, now, r, name, coupling, gateset, addrs)
    ensures |now| == |base| + 3 + |r.nativeGateset|
    ensures forall p :: p in base ==> p in now && now[p] == base[p]
    ensures name in now && now[name] == NameBlock(CString(r.name))
    ensures forall n: nat :: FirstNull(r.name, n) ==> ReadsAs(now[name], r.name[..n])
    ensures coupling in now && now[coupling] == Ints(Set(Casts(Flat(r.couplingMap))))
    ensures gateset in now && now[gateset] == Ptrs(Set(addrs)) && |addrs| == |r.nativeGateset|
    ensures forall i :: 0 <= i < |addrs| ==> addrs[i] in now && now[addrs[i]] == Object(r.nativeGateset[i])
  {
    var mapped := WithNameAndMap(base, r, name, coupling);
    assert |base[name := NameBlock(CString(r.name))]| == |base| + 1 && |mapped| == |base| + 2;
    GatesGivenMean(mapped, now, gateset, r.nativeGateset, addrs);
    assert mapped[name] == NameBlock(CString(r.name));
    PrintedNameReads(r.name);
  }

  /** asprintf leaves the text up to its first null character. */
  lemma PrintedNameReads(text: string)
    ensures forall n: nat :: FirstNull(text, n) ==> ReadsAs(NameBlock(CString(text)), text[..n])
  {
    forall n: nat | FirstNull(text, n) ensures ReadsAs(NameBlock(CString(text)), text[..n]) {
      var s := CString(text);
      assert |s| == n;
      NullEndsText(s, n);
      assert s[..n] == s;
    }
  }

  lemma CopiedNameReads(text: string)
    ensures forall n: nat :: FirstNull(text, n) ==> ReadsAs(NameBlock(text), text[..n])
  {
    forall n: nat | FirstNull(text, n) ensures ReadsAs(NameBlock(text), text[..n]) {
      NullEndsText(text, n);
    }
  }

  // ------------------------------------------------------------ reading the flat arrays back

  /** The array cut into rows of the given width; a remainder is dropped. */
  function Chunks(flat: seq<int>, width: nat): seq<seq<int>>
    requires width > 0
    decreases |flat|
  {
    if |flat| < width then [] else [flat[..width]] + Chunks(flat[width..], width)
  }

  lemma {:induction false} FlatConcat(a: seq<seq<int>>, b: seq<seq<int>>)
    ensures Flat(a + b) == Flat(a) + Flat(b)
    decreases |b|
  {
    if b == [] {
      assert a + b == a;
    } else {
      var k := |b| - 1;
      FlatConcat(a, b[..k]);
      assert (a + b)[..|a + b| - 1] == a + b[..k];
      assert Flat(a) + Flat(b[..k]) + b[k] == Flat(a) + (Flat(b[..k]) + b[k]);
    }
  }

  lemma FlatFirst(rows: seq<seq<int>>)
    requires rows != []
    ensures Flat(rows) == rows[0] + Flat(rows[1..])
  {
    var first := [rows[0]];
    assert first[..0] == [] && Flat(first) == [] + rows[0];
    FlatConcat(first, rows[1..]);
    assert first + rows[1..] == rows;
  }

  lemma {:induction false} ChunkWidths(flat: seq<int>, width: nat)
    requires width > 0
    ensures forall k :: 0 <= k < |Chunks(flat, width)| ==> |Chunks(flat, width)[k]| == width
    decreases |flat|
  {
    if |flat| >= width {
      ChunkWidths(flat[width..], width);
    }
  }

  /** Cutting a flattened table by the row width gives the rows back exactly when every row has
      that width. */
  lemma {:induction false} ChunksIffWidth(rows: seq<seq<int>>, width: nat)
    requires width > 0
    ensures Chunks(Flat(rows), width) == rows <==> forall k :: 0 <= k < |rows| ==> |rows[k]| == width
    decreases |rows|
  {
    ChunkWidths(Flat(rows), width);
    if rows != [] && forall k :: 0 <= k < |rows| ==> |rows[k]| == width {
      var rest := rows[1..];
      ChunksIffWidth(rest, width);
      FlatFirst(rows);
      assert forall k :: 0 <= k < |rest| ==> rest[k] == rows[k + 1];
      assert Flat(rows)[..width] == rows[0] && Flat(rows)[width..] == Flat(rest);
      assert rows == [rows[0]] + rest;
    }
  }
}
