/**
  The resource texts character by character: what each pattern matches, the texts that Python
  prints, and what is not read.
 */
module ResourceTexts {
  import opened Wrappers
  import opened Text
  import opened Regex
  import opened ResourceParser
  import opened ResourceTheorems

  // ------------------------------------------------------------ the patterns, spelled out

  predicate Numeral(s: string) {
    s != "" && forall i :: 0 <= i < |s| ==> s[i] in "0123456789"
  }

  lemma NumeralDigits(s: string)
    ensures Numeral(s) <==> s != "" && AllDigits(s)
  {
    forall i | 0 <= i < |s| ensures IsDigit(s[i]) <==> s[i] in "0123456789" {
      DigitTable(s[i]);
    }
  }

  lemma BlankFits(s: string)
    ensures PieceFits(Star(Space), s) <==> Blank(s)
  {
    BlankIsSpace(s);
  }

  lemma OneFits(c: char, s: string)
    ensures PieceFits(One(Just(c)), s) <==> s == [c]
  {
  }

  lemma FitsSix(pat: Pattern, p: seq<string>)
    requires |pat| == 6
    ensures Fits(pat, p) <==>
              |p| == 6 && PieceFits(pat[0], p[0]) && PieceFits(pat[1], p[1]) && PieceFits(pat[2], p[2])
              && PieceFits(pat[3], p[3]) && PieceFits(pat[4], p[4]) && PieceFits(pat[5], p[5])
  {
  }

  /** A coupling: bracket, numeral, comma, white space, numeral, bracket. */
  lemma CouplingReads(p: seq<string>)
    ensures Fits(COUPLING, p) <==>
              && |p| == 6 && p[0] == "[" && Numeral(p[1]) && p[2] == "," && Blank(p[3]) && Numeral(p[4]) && p[5] == "]"
  {
    FitsSix(COUPLING, p);
    if |p| == 6 {
      NumeralDigits(p[1]);
      BlankFits(p[3]);
      NumeralDigits(p[4]);
    }
  }

  predicate NoneOf(s: string, bad: string) {
    forall i :: 0 <= i < |s| ==> s[i] !in bad
  }

  predicate QuoteMark(s: string) {
    s == "'" || s == "\""
  }

  lemma QuoteFits(s: string)
    ensures PieceFits(One(Quote), s) <==> QuoteMark(s)
  {
  }

  lemma NameFits(s: string)
    ensures PieceFits(Plus(NotQuote), s) <==> s != "" && NoneOf(s, "'\"")
  {
  }

  lemma BodyFitsBraces(s: string)
    ensures PieceFits(Star(NotBrace), s) <==> NoneOf(s, "{}")
  {
  }

  lemma TupleTextFits(s: string)
    ensures PieceFits(Star(NotParen), s) <==> NoneOf(s, ")")
  {
  }

  lemma GateItems(p: seq<string>)
    ensures Fits(GATE, p) <==>
              && |p| == 13
              && PieceFits(One(Just('(')), p[0]) && PieceFits(Star(Space), p[1]) && PieceFits(One(Quote), p[2])
              && PieceFits(Plus(NotQuote), p[3]) && PieceFits(One(Quote), p[4]) && PieceFits(Star(Space), p[5])
              && PieceFits(One(Just(',')), p[6]) && PieceFits(Star(Space), p[7]) && PieceFits(One(Just('{')), p[8])
              && PieceFits(Star(NotBrace), p[9]) && PieceFits(One(Just('}')), p[10])
              && PieceFits(Star(Space), p[11]) && PieceFits(One(Just(')')), p[12])
  {
  }

  /** A gate: parenthesis, quoted name, comma, braces, parenthesis, with white space between. */
  lemma GateReads(p: seq<string>)
    ensures Fits(GATE, p) <==>
              && |p| == 13 && p[0] == "(" && Blank(p[1]) && QuoteMark(p[2]) && p[3] != "" && NoneOf(p[3], "'\"")
              && QuoteMark(p[4]) && Blank(p[5]) && p[6] == "," && Blank(p[7]) && p[8] == "{" && NoneOf(p[9], "{}")
              && p[10] == "}" && Blank(p[11]) && p[12] == ")"
  {
    GateItems(p);
    if |p| == 13 {
      OneFits('(', p[0]);
      BlankFits(p[1]);
      QuoteFits(p[2]);
      NameFits(p[3]);
      QuoteFits(p[4]);
      BlankFits(p[5]);
      OneFits(',', p[6]);
      BlankFits(p[7]);
      OneFits('{', p[8]);
      BodyFitsBraces(p[9]);
      OneFits('}', p[10]);
      BlankFits(p[11]);
      OneFits(')', p[12]);
    }
  }

  lemma TupleItems(p: seq<string>)
    ensures Fits(TUPLE, p) <==>
              && |p| == 9
              && PieceFits(Star(NotParen), p[0]) && PieceFits(One(Just(')')), p[1]) && PieceFits(Star(Space), p[2])
              && PieceFits(One(Just(':')), p[3]) && PieceFits(Star(Space), p[4]) && PieceFits(One(Just('N')), p[5])
              && PieceFits(One(Just('o')), p[6]) && PieceFits(One(Just('n')), p[7]) && PieceFits(One(Just('e')), p[8])
  {
  }

  /** A tuple: what comes before the closing parenthesis, and after it a colon and None. */
  lemma TupleReads(p: seq<string>)
    ensures Fits(TUPLE, p) <==>
              && |p| == 9 && NoneOf(p[0], ")") && p[1] == ")" && Blank(p[2]) && p[3] == ":" && Blank(p[4])
              && p[5] == "N" && p[6] == "o" && p[7] == "n" && p[8] == "e"
  {
    TupleItems(p);
    if |p| == 9 {
      TupleTextFits(p[0]);
      OneFits(')', p[1]);
      BlankFits(p[2]);
      OneFits(':', p[3]);
      BlankFits(p[4]);
      OneFits('N', p[5]);
      OneFits('o', p[6]);
      OneFits('n', p[7]);
      OneFits('e', p[8]);
    }
  }

  /** The pieces of a match stand in the text one after the other. */
  lemma JoinSix(p: seq<string>)
    requires |p| == 6
    ensures Join(p) == p[0] + p[1] + p[2] + p[3] + p[4] + p[5]
  {
    JoinFirst(p);
    JoinFirst(p[1..]);
    JoinFirst(p[2..]);
    JoinFirst(p[3..]);
    JoinFirst(p[4..]);
    JoinFirst(p[5..]);
    assert Join(p[6..]) == "";
    RegroupSix(p[0], p[1], p[2], p[3], p[4], p[5]);
  }

  lemma JoinFirst(p: seq<string>)
    requires p != []
    ensures Join(p) == p[0] + Join(p[1..])
  {
  }

  lemma RegroupSix(a: string, b: string, c: string, d: string, e: string, f: string)
    ensures a + (b + (c + (d + (e + (f + ""))))) == a + b + c + d + e + f
  {
  }

  // ------------------------------------------------------------ the texts that Python prints

  /** [a, b], [c, d], ... */
  function PythonPairs(pairs: seq<(nat, nat)>): string {
    if pairs == [] then ""
    else
      "[" + Decimal(pairs[0].0) + ", " + Decimal(pairs[0].1) + "]" +
      (if |pairs| == 1 then "" else ", " + PythonPairs(pairs[1..]))
  }

  lemma PairText(pair: (nat, nat))
    ensures Join(CouplingPieces(pair, " ")) == "[" + Decimal(pair.0) + ", " + Decimal(pair.1) + "]"
  {
    JoinSix(CouplingPieces(pair, " "));
    assert ", " == "," + " ";
    RegroupPair("[", Decimal(pair.0), Decimal(pair.1));
  }

  lemma RegroupPair(o: string, a: string, b: string)
    ensures o + a + "," + " " + b + "]" == o + a + ", " + b + "]"
  {
    assert "," + " " == ", ";
    assert o + a + "," + " " == o + a + ("," + " ");
  }

  lemma {:induction false} PythonPairsPrinted(pairs: seq<(nat, nat)>)
    ensures PythonPairs(pairs) == PrintPairList(pairs, " ")
  {
    if pairs != [] {
      PairText(pairs[0]);
      PythonPairsPrinted(pairs[1..]);
    }
  }

  /** Every list of pairs as Python prints it is read back. */
  lemma PythonCouplingRead(pairs: seq<(nat, nat)>)
    requires forall i :: 0 <= i < |pairs| ==> pairs[i].0 <= 2147483647 && pairs[i].1 <= 2147483647
    ensures var r := CouplingIn("[" + PythonPairs(pairs) + "]");
            && r.Ok? && |r.value| == |pairs|
            && forall i :: 0 <= i < |pairs| ==> r.value[i] == [pairs[i].0, pairs[i].1]
  {
    PythonPairsPrinted(pairs);
    CouplingRoundTrip(pairs, " ");
  }

  const PYTHON := Style('\'', "", "", " ", "", "", " ")

  /** 0, 1 or 2, for one element */
  function PythonNumbers(qs: seq<nat>): string {
    if qs == [] then ""
    else if |qs| == 1 then Decimal(qs[0])
    else Decimal(qs[0]) + ", " + PythonNumbers(qs[1..])
  }

  function PythonTuple(qs: seq<nat>): string {
    if |qs| == 1 then "(" + Decimal(qs[0]) + ",)" else "(" + PythonNumbers(qs) + ")"
  }

  /** (q0, q1): None, (q2,): None, ... */
  function PythonEntries(tuples: seq<seq<nat>>): string {
    if tuples == [] then ""
    else PythonTuple(tuples[0]) + ": None" + (if |tuples| == 1 then "" else ", " + PythonEntries(tuples[1..]))
  }

  /** ('name', {...}), ... */
  function PythonGates(gates: seq<NativeGate>): string {
    if gates == [] then ""
    else
      "('" + gates[0].name + "', {" + PythonEntries(gates[0].tuples) + "})" +
      (if |gates| == 1 then "" else ", " + PythonGates(gates[1..]))
  }

  lemma {:induction false} NumbersText(qs: seq<nat>)
    ensures PythonNumbers(qs) == PrintNumbers(qs)
  {
    if |qs| > 1 {
      NumbersText(qs[1..]);
    }
  }

  lemma EndText()
    ensures Join(EntryEnd(PYTHON)) == "): None"
  {
    var p := EntryEnd(PYTHON);
    assert p == [")", "", ":", " ", "N", "o", "n", "e"];
    JoinFirst(p);
    JoinFirst(p[1..]);
    JoinFirst(p[2..]);
    JoinFirst(p[3..]);
    JoinFirst(p[4..]);
    JoinFirst(p[5..]);
    JoinFirst(p[6..]);
    JoinFirst(p[7..]);
    assert Join(p[8..]) == "";
  }

  lemma TupleText(qs: seq<nat>)
    ensures OpenTuple(qs) + Join(EntryEnd(PYTHON)) == PythonTuple(qs) + ": None"
  {
    NumbersText(qs);
    EndText();
    assert "): None" == ")" + ": None" && ",)" == "," + ")";
    RegroupTuple(PrintNumbers(qs));
  }

  lemma RegroupTuple(s: string)
    ensures "(" + s + "," + (")" + ": None") == "(" + s + ("," + ")") + ": None"
    ensures "(" + s + "" + (")" + ": None") == "(" + s + ")" + ": None"
  {
  }

  lemma {:induction false} EntriesText(tuples: seq<seq<nat>>)
    ensures PythonEntries(tuples) == PrintEntries(tuples, PYTHON)
  {
    if tuples != [] {
      TupleText(tuples[0]);
      EntriesText(tuples[1..]);
    }
  }

  lemma PythonPieces(g: NativeGate)
    ensures GatePieces(g, PYTHON) ==
            ["(", "", "'", g.name, "'", "", ",", " ", "{", PythonEntries(g.tuples), "}", "", ")"]
  {
    EntriesText(g.tuples);
  }

  lemma GateText(g: NativeGate)
    ensures Join(GatePieces(g, PYTHON)) == "('" + g.name + "', {" + PythonEntries(g.tuples) + "})"
  {
    PythonPieces(g);
    var p := GatePieces(g, PYTHON);
    GateFrontText(p);
    GateBackText(p);
    RegroupGate(g.name, PythonEntries(g.tuples));
  }

  lemma GateFrontText(p: seq<string>)
    requires |p| == 13 && p[0] == "(" && p[1] == "" && p[2] == "'" && p[4] == "'" && p[5] == ""
    ensures Join(p) == "('" + p[3] + "'" + Join(p[6..])
  {
    JoinFirst(p);
    JoinFirst(p[1..]);
    JoinFirst(p[2..]);
    JoinFirst(p[3..]);
    JoinFirst(p[4..]);
    JoinFirst(p[5..]);
    assert "('" == "(" + "'";
    RegroupFront("(", "'", p[3], Join(p[6..]));
  }

  lemma RegroupFront(o: string, q: string, name: string, rest: string)
    ensures o + ("" + (q + (name + (q + ("" + rest))))) == o + q + name + q + rest
  {
  }

  lemma GateBackText(p: seq<string>)
    requires |p| == 13 && p[6] == "," && p[7] == " " && p[8] == "{" && p[10] == "}" && p[11] == "" && p[12] == ")"
    ensures Join(p[6..]) == ", {" + p[9] + "})"
  {
    JoinFirst(p[6..]);
    JoinFirst(p[7..]);
    JoinFirst(p[8..]);
    JoinFirst(p[9..]);
    JoinFirst(p[10..]);
    JoinFirst(p[11..]);
    JoinFirst(p[12..]);
    assert Join(p[13..]) == "";
    assert "," + (" " + ("{" + (p[9] + ("}" + ("" + (")" + "")))))) == ", {" + p[9] + "})";
  }

  lemma RegroupGate(name: string, body: string)
    ensures "('" + name + "'" + (", {" + body + "})") == "('" + name + "', {" + body + "})"
  {
    assert "', {" == "'" + ", {";
    RegroupMiddle("('" + name, "'", ", {", body, "})");
  }

  lemma RegroupMiddle(a: string, b: string, c: string, d: string, e: string)
    ensures a + b + (c + d + e) == a + (b + c) + d + e
  {
  }

  lemma {:induction false} PythonGatesPrinted(gates: seq<NativeGate>)
    ensures PythonGates(gates) == PrintList(gates, PYTHON)
  {
    if gates != [] {
      GateText(gates[0]);
      PythonGatesPrinted(gates[1..]);
    }
  }

  /** Every list of gates of the table as Python prints it is read back. */
  lemma PythonGatesRead(gates: seq<NativeGate>)
    requires forall i :: 0 <= i < |gates| ==> Known(gates[i].name)
    requires forall i, j, k :: 0 <= i < |gates| && 0 <= j < |gates[i].tuples| && 0 <= k < |gates[i].tuples[j]| ==>
               gates[i].tuples[j][k] <= 2147483647
    ensures var r := GatesIn("[" + PythonGates(gates) + "]");
            && r.Ok? && |r.value| == |gates|
            && forall i :: 0 <= i < |gates| ==>
                 r.value[i].name == gates[i].name && r.value[i].supportedQubits == gates[i].tuples
  {
    PythonGatesPrinted(gates);
    GatesRoundTrip(gates, PYTHON);
  }

  // ------------------------------------------------------------ two texts

  lemma SmallDecimals()
    ensures Decimal(0) == "0" && Decimal(1) == "1" && Decimal(2) == "2"
  {
  }

  lemma PairsText(a: (nat, nat), b: (nat, nat))
    ensures PythonPairs([a, b]) ==
            "[" + Decimal(a.0) + ", " + Decimal(a.1) + "]" + (", " + ("[" + Decimal(b.0) + ", " + Decimal(b.1) + "]"))
  {
    assert [a, b][1..] == [b];
    assert PythonPairs([b]) == "[" + Decimal(b.0) + ", " + Decimal(b.1) + "]";
  }

  lemma TwoPairsText()
    ensures "[" + PythonPairs([(0, 2), (2, 0)]) + "]" == "[[0, 2], [2, 0]]"
  {
    SmallDecimals();
    PairsText((0, 2), (2, 0));
  }

  lemma TwoRows(a: (nat, nat), b: (nat, nat))
    ensures Rows([a, b]) == [[a.0 as int, a.1], [b.0 as int, b.1]]
  {
    assert |Rows([a, b])| == 2 && Rows([a, b])[0] == Row(a) && Rows([a, b])[1] == Row(b);
  }

  lemma TwoRead(text: string, a: (nat, nat), b: (nat, nat))
    requires text == "[" + PythonPairs([a, b]) + "]"
    requires a.0 <= INT_MAX && a.1 <= INT_MAX && b.0 <= INT_MAX && b.1 <= INT_MAX
    ensures CouplingIn(text) == Ok([[a.0 as int, a.1], [b.0 as int, b.1]])
  {
    PythonPairsPrinted([a, b]);
    CouplingRoundTrip([a, b], " ");
    TwoRows(a, b);
  }

  /** The connectivity of two coupled qubits. */
  lemma TwoPairsRead(text: string)
    requires text == "[[0, 2], [2, 0]]"
    ensures CouplingIn(text) == Ok([[0, 2], [2, 0]])
  {
    TwoPairsText();
    TwoRead(text, (0, 2), (2, 0));
  }

  lemma OneGateText(g: NativeGate)
    ensures PythonGates([g]) == "('" + g.name + "', {" + PythonEntries(g.tuples) + "})"
  {
  }

  lemma OneEntryText(qs: seq<nat>)
    ensures PythonEntries([qs]) == PythonTuple(qs) + ": None"
  {
  }

  lemma TwoQubitsText(a: nat, b: nat)
    ensures PythonTuple([a, b]) == "(" + (Decimal(a) + ", " + Decimal(b)) + ")"
  {
    assert [a, b][1..] == [b];
    assert PythonNumbers([b]) == Decimal(b);
  }

  lemma CzText()
    ensures PythonGates([NativeGate("cz", [[0, 1]])]) == "('cz', {(0, 1): None})"
  {
    SmallDecimals();
    TwoQubitsText(0, 1);
    OneEntryText([0, 1]);
    OneGateText(NativeGate("cz", [[0, 1]]));
  }

  /** A gate on two qubits. */
  lemma CzRead(text: string)
    requires text == "[" + "('cz', {(0, 1): None})" + "]"
    ensures GatesIn(text).Ok? && |GatesIn(text).value| == 1
    ensures GatesIn(text).value[0].name == "cz" && GatesIn(text).value[0].supportedQubits == [[0, 1]]
  {
    CzText();
    PythonGatesRead([NativeGate("cz", [[0, 1]])]);
  }

  // ------------------------------------------------------------ what is not read

  /** Where the parts of a coupling found at offset i of the text stand. */
  lemma CouplingStands(text: string, i: nat, p: seq<string>)
    requires i <= |text| && MatchesAt(COUPLING, p, text[i..])
    ensures var m, n := |p[1]|, |p[3]|;
            && m > 0 && i + m + n + 2 < |text| && text[i] == '[' && text[i + 1 + m] == ','
            && (forall k :: i + 1 <= k < i + 1 + m ==> IsDigit(text[k]))
            && (forall k :: i + 2 + m <= k < i + 2 + m + n ==> White(text[k]))
            && IsDigit(text[i + 2 + m + n])
  {
    CouplingReads(p);
    NumeralDigits(p[1]);
    NumeralDigits(p[4]);
    JoinSix(p);
    var s := Join(p);
    assert forall k :: 0 <= k < |s| ==> s[k] == text[i..][k] == text[i + k];
    PiecesStand(p[0], p[1], p[2], p[3], p[4], p[5]);
    StandsAt(text, i, s, |p[1]|, |p[3]|);
  }

  ghost predicate Stands(s: string, m: nat, n: nat) {
    && m > 0 && m + n + 2 < |s| && s[0] == '[' && s[1 + m] == ','
    && (forall k :: 1 <= k < 1 + m ==> IsDigit(s[k]))
    && (forall k :: 2 + m <= k < 2 + m + n ==> White(s[k]))
    && IsDigit(s[2 + m + n])
  }

  lemma PiecesStand(a: string, b: string, c: string, d: string, e: string, f: string)
    requires a == "[" && b != "" && AllDigits(b) && c == "," && Blank(d) && e != "" && AllDigits(e)
    ensures Stands(a + b + c + d + e + f, |b|, |d|)
  {
    var s := a + b + c + d + e + f;
    assert forall k :: 0 <= k < |b| ==> s[1 + k] == b[k];
    assert forall k :: 0 <= k < |d| ==> s[2 + |b| + k] == d[k];
    assert s[2 + |b| + |d|] == e[0];
  }

  lemma StandsAt(text: string, i: nat, s: string, m: nat, n: nat)
    requires Stands(s, m, n) && i + |s| <= |text| && forall k :: 0 <= k < |s| ==> s[k] == text[i + k]
    ensures i + m + n + 2 < |text| && text[i] == '[' && text[i + 1 + m] == ','
    ensures forall k :: i + 1 <= k < i + 1 + m ==> IsDigit(text[k])
    ensures forall k :: i + 2 + m <= k < i + 2 + m + n ==> White(text[k])
    ensures IsDigit(text[i + 2 + m + n])
  {
    forall k | i + 1 <= k < i + 1 + m ensures IsDigit(text[k]) {
      assert s[k - i] == text[i + (k - i)];
    }
    forall k | i + 2 + m <= k < i + 2 + m + n ensures White(text[k]) {
      assert s[k - i] == text[i + (k - i)];
    }
  }

  /** A pair with the given text after the comma. */
  function GapText(a: nat, gap: string, b: nat): string {
    "[" + Decimal(a) + "," + gap + Decimal(b) + "]"
  }

  /** Characters of GapText by position: n digits of a, m characters of the gap, then b. */
  ghost predicate GapAt(text: string, n: nat, m: nat) {
    && n > 0 && n + m + 3 < |text| && text[0] == '[' && text[n + 1] == ',' && text[|text| - 1] == ']'
    && (forall k :: 1 <= k <= n ==> IsDigit(text[k]))
    && (forall k :: n + 2 <= k < n + 2 + m ==> !IsDigit(text[k]))
    && (forall k :: n + 2 + m <= k < |text| - 1 ==> IsDigit(text[k]))
  }

  lemma GapStands(a: string, gap: string, b: string)
    requires a != "" && AllDigits(a) && NoDigits(gap) && b != "" && AllDigits(b)
    ensures var text := "[" + a + "," + gap + b + "]";
            && GapAt(text, |a|, |gap|)
            && forall k :: 0 <= k < |gap| ==> text[|a| + 2 + k] == gap[k]
  {
    var text := "[" + a + "," + gap + b + "]";
    assert forall k :: 0 <= k < |a| ==> text[1 + k] == a[k];
    assert forall k :: 0 <= k < |gap| ==> text[|a| + 2 + k] == gap[k];
    assert forall k :: 0 <= k < |b| ==> text[|a| + 2 + |gap| + k] == b[k];
  }

  /** In such a text a coupling can only stand at the front, and then the gap is white space. */
  lemma OnlyAtFront(text: string, n: nat, m: nat, i: nat, p: seq<string>)
    requires GapAt(text, n, m) && i <= |text| && MatchesAt(COUPLING, p, text[i..])
    ensures i == 0 && forall k :: n + 2 <= k < n + 2 + m ==> White(text[k])
  {
    CouplingStands(text, i, p);
    var d, w := |p[1]|, |p[3]|;
    assert IsDigit(text[i + 1]);
    if i == 0 {
      assert d == n;
      assert IsDigit(text[2 + d + w]);
    }
  }

  /** A pair with anything but white space between comma and second number is not read, and
      reading nothing else of the text either gives the empty list; with white space it is read. */
  lemma GapReadIff(a: nat, gap: string, b: nat)
    requires NoDigits(gap) && a <= 2147483647 && b <= 2147483647
    ensures CouplingIn(GapText(a, gap, b)) == if Blank(gap) then Ok([[a as int, b]]) else Ok([])
  {
    if Blank(gap) {
      OnePair(a, gap, b);
    } else {
      GapStands(Decimal(a), gap, Decimal(b));
      NotRead(GapText(a, gap, b), |Decimal(a)|, gap);
    }
  }

  lemma NotRead(text: string, n: nat, gap: string)
    requires GapAt(text, n, |gap|) && !Blank(gap)
    requires forall k :: 0 <= k < |gap| ==> text[n + 2 + k] == gap[k]
    ensures CouplingIn(text) == Ok([])
  {
    forall i: nat ensures !Occurs(COUPLING, text, i) {
      NoOccurrence(text, n, gap, i);
    }
    NothingFound(text);
  }

  lemma NoOccurrence(text: string, n: nat, gap: string, i: nat)
    requires GapAt(text, n, |gap|) && !Blank(gap)
    requires forall k :: 0 <= k < |gap| ==> text[n + 2 + k] == gap[k]
    ensures !Occurs(COUPLING, text, i)
  {
    var j :| 0 <= j < |gap| && !White(gap[j]);
    assert !White(text[n + 2 + j]);
    if Occurs(COUPLING, text, i) {
      var p :| MatchesAt(COUPLING, p, text[i..]);
      OnlyAtFront(text, n, |gap|, i, p);
    }
  }

  lemma NothingFound(text: string)
    requires forall i: nat :: !Occurs(COUPLING, text, i)
    ensures CouplingIn(text) == Ok([])
  {
    CouplingShape();
    assert text[0..] == text;
    FindAllInOrder(COUPLING, text, 0);
    var fs := CouplingMatches(text);
    if fs != [] {
      assert Occurs(COUPLING, text, Start(text, fs[0]));
    }
  }

  lemma NoMargins(s: string)
    ensures s == "" + (s + "")
  {
  }

  lemma AloneMatches(text: string, pair: (nat, nat), gap: string)
    requires Blank(gap) && pair.0 <= INT_MAX && pair.1 <= INT_MAX && text == Join(CouplingPieces(pair, gap))
    ensures CouplingMatches(text) == [Found(CouplingPieces(pair, gap), "")]
    ensures PairOf(Found(CouplingPieces(pair, gap), "")) == Ok(Row(pair))
  {
    NoMargins(text);
    OneCoupling(text, "", pair, gap, "");
    NoCoupling("");
  }

  lemma AloneRead(text: string, pair: (nat, nat), gap: string)
    requires Blank(gap) && pair.0 <= INT_MAX && pair.1 <= INT_MAX && text == Join(CouplingPieces(pair, gap))
    ensures CouplingIn(text) == Ok([Row(pair)])
  {
    AloneMatches(text, pair, gap);
    TraverseOne(PairOf, Found(CouplingPieces(pair, gap), ""));
  }

  lemma OnePair(a: nat, gap: string, b: nat)
    requires Blank(gap) && a <= 2147483647 && b <= 2147483647
    ensures CouplingIn(GapText(a, gap, b)) == Ok([[a as int, b]])
  {
    JoinSix(CouplingPieces((a, b), gap));
    AloneRead(GapText(a, gap, b), (a, b), gap);
  }
}
