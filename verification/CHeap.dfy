/**
  The C heap seen by the bindings: a set of live blocks. Every malloc may fail, as an oracle
  decides call by call; freeing anything but a live block (or null) is a proof error.
 */
module CHeap {
  import opened Wrappers
  import opened ResourceParser

  /** A cell is None until it is first written. */
  datatype Block =
    | Ints(cells: seq<Option<int>>)
    | Ptrs(slots: seq<Option<nat>>)
    | Bytes(chars: seq<Option<char>>)
    | Object(gate: Gate)

  function Unset<T>(n: nat): (r: seq<Option<T>>)
    ensures |r| == n
  {
    seq(n, _ => None)
  }

  function Set<T>(values: seq<T>): (r: seq<Option<T>>)
    ensures |r| == |values| && forall i :: 0 <= i < |r| ==> r[i] == Some(values[i])
  {
    seq(|values|, i requires 0 <= i < |values| => Some(values[i]))
  }

  /** A block whose first k cells have been written, with the values they will hold at the end. */
  function Partial<T>(values: seq<T>, k: nat): (r: seq<Option<T>>)
    ensures |r| == |values|
  {
    seq(|values|, i requires 0 <= i < |values| => if i < k then Some(values[i]) else None)
  }

  lemma PartialSteps<T>(values: seq<T>, k: nat)
    ensures Partial(values, 0) == Unset(|values|) && Partial(values, |values|) == Set(values)
    ensures k < |values| ==> Partial(values, k)[k := Some(values[k])] == Partial(values, k + 1)
  {
  }

  /** n slots of which the first |addrs| have been written. */
  function Slots(addrs: seq<nat>, n: nat): (r: seq<Option<nat>>)
    ensures |r| == n
  {
    seq(n, i requires 0 <= i < n => if i < |addrs| then Some(addrs[i]) else None)
  }

  lemma SlotsSteps(addrs: seq<nat>, n: nat, p: nat)
    ensures Slots([], n) == Unset(n) && Slots(addrs, |addrs|) == Set(addrs)
    ensures |addrs| < n ==> Slots(addrs, n)[|addrs| := Some(p)] == Slots(addrs + [p], n)
  {
  }

  // ------------------------------------------------------------ strings as C reads them

  /** A caller that reads the block up to the first null character gets the text. */
  predicate ReadsAs(block: Block, text: string) {
    && block.Bytes? && |text| < |block.chars| && block.chars[|text|] == Some('\0')
    && forall i :: 0 <= i < |text| ==> block.chars[i] == Some(text[i]) && text[i] != '\0'
  }

  /** The first null character of the text is at n; n is its length if there is none. */
  predicate FirstNull(text: string, n: nat) {
    n <= |text| && (n < |text| ==> text[n] == '\0') && forall i :: 0 <= i < n ==> text[i] != '\0'
  }

  lemma NullEndsText(text: string, n: nat)
    requires FirstNull(text, n)
    ensures ReadsAs(Bytes(Set(text + "\0")), text[..n])
  {
    var all := text + "\0";
    assert all[n] == '\0';
  }

  lemma NotLonger(block: Block, a: string, b: string)
    requires ReadsAs(block, a) && ReadsAs(block, b)
    ensures |b| <= |a|
  {
  }

  /** What is read is unambiguous. */
  lemma ReadsOneText(block: Block, a: string, b: string)
    requires ReadsAs(block, a) && ReadsAs(block, b)
    ensures a == b
  {
    NotLonger(block, a, b);
    NotLonger(block, b, a);
    assert forall i :: 0 <= i < |a| ==> block.chars[i] == Some(a[i]) && block.chars[i] == Some(b[i]);
  }

  /** The caller's variables behind out-parameters: a pointer, an integer, a truth value. */
  class PtrCell {
    var value: nat
  }

  class IntCell {
    var value: int
  }

  class BoolCell {
    var value: bool
  }

  lemma SomeAddressIsFree(s: set<nat>)
    ensures exists p: nat :: p != 0 && p !in s
  {
    var bound := Above(s);
    assert bound + 1 !in s;
  }

  lemma {:induction false} Above(s: set<nat>) returns (bound: nat)
    ensures forall p :: p in s ==> p <= bound
  {
    if s == {} {
      bound := 0;
    } else {
      var x :| x in s;
      var b := Above(s - {x});
      bound := if x > b then x else b;
      assert forall p :: p in s ==> p == x || p in s - {x};
    }
  }

  class Heap {
    const fails: nat -> bool
    var calls: nat
    var blocks: map<nat, Block>

    ghost predicate Valid()
      reads this
    {
      0 !in blocks
    }

    constructor (fails: nat -> bool)
      ensures Valid() && this.fails == fails && calls == 0 && blocks == map[]
    {
      this.fails := fails;
      calls := 0;
      blocks := map[];
    }

    /** Null when the oracle says so, otherwise any address that is not in use. */
    method Malloc(content: Block) returns (p: nat)
      requires Valid()
      modifies this
      ensures Valid() && calls == old(calls) + 1
      ensures p == 0 <==> fails(old(calls))
      ensures p == 0 ==> blocks == old(blocks)
      ensures p != 0 ==> p !in old(blocks) && blocks == old(blocks)[p := content]
    {
      calls := calls + 1;
      if fails(calls - 1) {
        return 0;
      }
      SomeAddressIsFree(blocks.Keys);
      p :| p != 0 && p !in blocks.Keys;
      blocks := blocks[p := content];
    }

    /** operator new, assumed to succeed. */
    method New(content: Block) returns (p: nat)
      requires Valid()
      modifies `blocks
      ensures Valid() && p != 0 && p !in old(blocks) && blocks == old(blocks)[p := content]
    {
      SomeAddressIsFree(blocks.Keys);
      p :| p != 0 && p !in blocks.Keys;
      blocks := blocks[p := content];
    }

    method Free(p: nat)
      requires Valid() && (p == 0 || p in blocks)
      modifies `blocks
      ensures Valid() && blocks == old(blocks) - {p}
    {
      blocks := blocks - {p};
    }

    method StoreInt(p: nat, i: nat, v: int)
      requires Valid() && p in blocks && blocks[p].Ints? && i < |blocks[p].cells|
      modifies `blocks
      ensures Valid() && blocks == old(blocks)[p := Ints(old(blocks)[p].cells[i := Some(v)])]
    {
      blocks := blocks[p := Ints(blocks[p].cells[i := Some(v)])];
    }

    method StorePtr(p: nat, i: nat, v: nat)
      requires Valid() && p in blocks && blocks[p].Ptrs? && i < |blocks[p].slots|
      modifies `blocks
      ensures Valid() && blocks == old(blocks)[p := Ptrs(old(blocks)[p].slots[i := Some(v)])]
    {
      blocks := blocks[p := Ptrs(blocks[p].slots[i := Some(v)])];
    }

    /** Only initialised slots may be read. */
    method LoadPtr(p: nat, i: nat) returns (v: nat)
      requires p in blocks && blocks[p].Ptrs? && i < |blocks[p].slots| && blocks[p].slots[i].Some?
      ensures v == blocks[p].slots[i].value
    {
      v := blocks[p].slots[i].value;
    }

    /** memcpy of a whole text into a block of exactly its size. */
    method CopyText(p: nat, text: string)
      requires Valid() && p in blocks && blocks[p].Bytes? && |blocks[p].chars| == |text|
      modifies `blocks
      ensures Valid() && blocks == old(blocks)[p := Bytes(Set(text))]
    {
      blocks := blocks[p := Bytes(Set(text))];
    }
  }
}
