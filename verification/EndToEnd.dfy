/** From printed text and JSON to the C arrays that a caller of the bindings receives. */
module EndToEnd {
  import opened Wrappers
  import opened Text
  import opened Json
  import opened ResourceParser
  import opened ResourceTheorems
  import opened ResourceInfo
  import opened JobResults
  import opened JobCounts

  /** The i-th pair is at positions 2i and 2i + 1, and there is nothing else. */
  ghost predicate Interleaved(flat: seq<int>, pairs: seq<(nat, nat)>) {
    |flat| == 2 * |pairs| &&
    forall i :: 0 <= i < |pairs| ==> flat[2 * i] == pairs[i].0 && flat[2 * i + 1] == pairs[i].1
  }

  lemma {:induction false} FlatRows(pairs: seq<(nat, nat)>)
    ensures Interleaved(Flat(Rows(pairs)), pairs)
  {
    if pairs == [] {
      assert Rows(pairs) == [];
    } else {
      var k := |pairs| - 1;
      FlatRows(pairs[..k]);
      assert Rows(pairs)[..k] == Rows(pairs[..k]);
      assert Flat(Rows(pairs)) == Flat(Rows(pairs[..k])) + Row(pairs[k]);
      assert forall i :: 0 <= i < k ==> pairs[..k][i] == pairs[i];
    }
  }

  lemma CastsKeepPairs(flat: seq<int>, pairs: seq<(nat, nat)>)
    requires Interleaved(flat, pairs) && PairsFit(pairs)
    ensures Interleaved(Casts(flat), pairs)
  {
  }

  /** Printing a coupling map, reading the text and flattening the pairs gives an array of twice
      the length with the i-th pair at 2i and 2i + 1. */
  lemma CouplingEndToEnd(pairs: seq<(nat, nat)>, gap: string)
    requires PairsFit(pairs) && Blank(gap)
    ensures CouplingIn(PrintCoupling(pairs, gap)).Ok?
    ensures Interleaved(Casts(Flat(CouplingIn(PrintCoupling(pairs, gap)).value)), pairs)
  {
    CouplingRoundTrip(pairs, gap);
    FlatRows(pairs);
    CastsKeepPairs(Flat(Rows(pairs)), pairs);
  }

  lemma {:induction false} FlatFits(rows: seq<seq<nat>>)
    requires TuplesFit(rows)
    ensures forall i :: 0 <= i < |Flat(rows)| ==> 0 <= Flat(rows)[i] <= INT_MAX
  {
    if rows != [] {
      FlatFits(rows[..|rows| - 1]);
    }
  }

  /** Printing gates, reading the text and flattening the tuples of the k-th gate: cut by the
      gate's qubit number, the array gives the tuples back exactly when all have that width. */
  lemma GateEndToEnd(gates: seq<NativeGate>, st: Style, k: nat)
    requires StyleOk(st) && Printable(gates) && k < |gates|
    ensures GatesIn(PrintGates(gates, st)).Ok? && |GatesIn(PrintGates(gates, st)).value| == |gates|
    ensures var gate := GatesIn(PrintGates(gates, st)).value[k];
            && gate.name == gates[k].name && gate.qubitNumber > 0
            && (Chunks(Casts(Flat(gate.supportedQubits)), gate.qubitNumber) == gates[k].tuples <==>
                  forall i :: 0 <= i < |gates[k].tuples| ==> |gates[k].tuples[i]| == gate.qubitNumber)
  {
    GatesRoundTrip(gates, st);
    var gate := Meant(gates[k]);
    TableCounts(gate.name);
    FlatFits(gate.supportedQubits);
    assert Casts(Flat(gate.supportedQubits)) == Flat(gate.supportedQubits);
    ChunksIffWidth(gate.supportedQubits, gate.qubitNumber);
  }

  /** Results sent as a JSON array arrive in the C arrays as the entries of all circuits in
      order, keys ascending within each, and no shot is lost. */
  lemma CountsEndToEnd(results: seq<CountMap>)
    requires forall k :: 0 <= k < |results| ==> Sorted(results[k]) && CountsFit(results[k])
    requires forall i :: 0 <= i < |Entries(results)| ==> Entries(results)[i].1 <= INT_MAX
    ensures var doc := EncodedAll(results);
            && MapsOf(doc).Ok?
            && CountsArray(Entries(MapsOf(doc).value)) ==
               seq(|Entries(results)|, i requires 0 <= i < |Entries(results)| => Entries(results)[i].1)
            && IntSum(CountsArray(Entries(MapsOf(doc).value))) == AllSum(results)
  {
    ResultsRoundTrip(results);
    FlatteningKeepsTotal(results);
  }
}
