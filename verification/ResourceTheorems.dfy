/** What the extracted couplings and gates are, for every text, and the round trips. */
module ResourceTheorems {
  import opened Wrappers
  import opened Text
  import opened Regex
  import opened ResourceParser

  // ------------------------------------------------------------ the four patterns

  lemma CouplingShape()
    ensures Deterministic(COUPLING) && Fenced(COUPLING) && Productive(COUPLING)
  {
    assert !COUPLING[0].Star?;
    assert Apart(Digit, COUPLING[2..]) && Apart(Space, COUPLING[4..]) && Apart(Digit, COUPLING[5..]);
  }

  lemma GateShape()
    ensures Deterministic(GATE) && Productive(GATE)
  {
    assert !GATE[0].Star?;
    GateFront();
    GateBack();
    forall k | 0 <= k < |GATE| ensures GATE[k].One? || Apart(GATE[k].cls, GATE[k + 1..]) {
      if k < 7 {
        assert GATE[k].One? || k == 1 || k == 3 || k == 5;
      } else {
        assert GATE[k].One? || k == 7 || k == 9 || k == 11;
      }
    }
  }

  lemma GateFront()
    ensures Apart(Space, GATE[2..]) && Apart(NotQuote, GATE[4..]) && Apart(Space, GATE[6..])
  {
  }

  lemma GateBack()
    ensures Apart(Space, GATE[8..]) && Apart(NotBrace, GATE[10..]) && Apart(Space, GATE[12..])
  {
  }

  lemma TupleShape()
    ensures Deterministic(TUPLE) && Productive(TUPLE)
  {
    assert !TUPLE[1].Star?;
    assert Apart(NotParen, TUPLE[1..]) && Apart(Space, TUPLE[3..]) && Apart(Space, TUPLE[5..]);
  }

  /** Each of the three scans needs one pass and no backtracking, and from one start finds
      at most one match. */
  lemma PatternsAreDeterministic(s: string)
    ensures Scan(COUPLING, s) == Engine(COUPLING, s)
    ensures Scan(GATE, s) == Engine(GATE, s)
    ensures Scan(TUPLE, s) == Engine(TUPLE, s)
    ensures forall pat, p, q ::
              (pat == COUPLING || pat == GATE || pat == TUPLE) && MatchesAt(pat, p, s) && MatchesAt(pat, q, s)
              ==> p == q
  {
    CouplingShape();
    GateShape();
    TupleShape();
    ScanIsEngine(COUPLING, s);
    ScanIsEngine(GATE, s);
    ScanIsEngine(TUPLE, s);
    forall pat, p, q | (pat == COUPLING || pat == GATE || pat == TUPLE) && MatchesAt(pat, p, s) && MatchesAt(pat, q, s)
      ensures p == q
    {
      MatchIsUnique(pat, s, p, q);
    }
  }

  // ------------------------------------------------------------ coupling maps

  /** At offset i the text reads [a, b] with the numerals p[1] and p[4]. */
  ghost predicate CouplingAt(text: string, i: nat, p: seq<string>) {
    i <= |text| && MatchesAt(COUPLING, p, text[i..])
  }

  lemma CouplingNumerals(p: seq<string>)
    requires Fits(COUPLING, p)
    ensures p[1] != "" && AllDigits(p[1]) && p[4] != "" && AllDigits(p[4])
  {
    assert PieceFits(COUPLING[1], p[1]) && PieceFits(COUPLING[4], p[4]);
  }

  /** The pair a match denotes, in mathematical numbers. */
  ghost function Denoted(p: seq<string>): (nat, nat)
    requires Fits(COUPLING, p)
  {
    CouplingNumerals(p);
    (Value(p[1]), Value(p[4]))
  }

  lemma NumberDenotes(digits: string)
    requires digits != "" && AllDigits(digits)
    ensures Number(digits) == if Value(digits) <= INT_MAX then Ok(Value(digits)) else Err(BadNumber(OutOfRange))
  {
    StoiDigits(digits);
  }

  lemma PairOfDigits(f: Found, a: string, b: string)
    requires |f.pieces| > 4 && f.pieces[1] == a != "" && f.pieces[4] == b != "" && AllDigits(a) && AllDigits(b)
    ensures PairOf(f) ==
            if Value(a) <= INT_MAX && Value(b) <= INT_MAX then Ok([Value(a), Value(b)])
            else Err(BadNumber(OutOfRange))
  {
    NumberDenotes(a);
    NumberDenotes(b);
    assert Group(f, 1) == a && Group(f, 4) == b;
  }

  lemma PairDenoted(f: Found)
    requires Fits(COUPLING, f.pieces)
    ensures var d := Denoted(f.pieces);
            PairOf(f) == if d.0 <= INT_MAX && d.1 <= INT_MAX then Ok([d.0, d.1]) else Err(BadNumber(OutOfRange))
  {
    CouplingNumerals(f.pieces);
    PairOfDigits(f, f.pieces[1], f.pieces[4]);
  }

  ghost predicate PairsAt(text: string, ps: seq<seq<int>>, starts: seq<nat>) {
    && |starts| == |ps|
    && (forall k, l :: 0 <= k < l < |starts| ==> starts[k] < starts[l])
    && (forall k :: 0 <= k < |starts| ==> PairAt(text, starts[k], ps[k]))
  }

  ghost predicate PairAt(text: string, i: nat, pair: seq<int>) {
    exists p :: CouplingAt(text, i, p) && pair == [Denoted(p).0, Denoted(p).1]
  }

  ghost function Starts(text: string, fs: seq<Found>): (r: seq<nat>)
    requires InOrder(COUPLING, text, fs, 0)
    ensures |r| == |fs| && forall k :: 0 <= k < |fs| ==> r[k] == Start(text, fs[k])
  {
    seq(|fs|, k requires 0 <= k < |fs| => Start(text, fs[k]))
  }

  /** For every text on which extraction succeeds, the result is the list of the pairs at all
      places where the pattern occurs, in order of position and none missed. */
  lemma CouplingIsAllOccurrences(text: string) returns (starts: seq<nat>)
    requires CouplingIn(text).Ok?
    ensures PairsAt(text, CouplingIn(text).value, starts)
    ensures forall j: nat :: Occurs(COUPLING, text, j) <==> j in starts
  {
    CouplingShape();
    assert text[0..] == text;
    FindAllInOrder(COUPLING, text, 0);
    var fs := CouplingMatches(text);
    starts := Starts(text, fs);
    TraverseOk(PairOf, fs);
    forall k | 0 <= k < |fs| ensures PairAt(text, starts[k], CouplingIn(text).value[k]) {
      PairDenoted(fs[k]);
      assert CouplingAt(text, starts[k], fs[k].pieces);
    }
    forall j: nat ensures Occurs(COUPLING, text, j) <==> j in starts {
      StartsAreOccurrences(text, starts, j);
    }
  }

  lemma StartsAreOccurrences(text: string, starts: seq<nat>, j: nat)
    requires InOrder(COUPLING, text, CouplingMatches(text), 0) && starts == Starts(text, CouplingMatches(text))
    ensures Occurs(COUPLING, text, j) <==> j in starts
  {
    CouplingShape();
    assert text[0..] == text;
    var fs := CouplingMatches(text);
    if Occurs(COUPLING, text, j) {
      FindAllMissesNone(COUPLING, text, 0, j);
    }
    if j in starts {
      var k :| 0 <= k < |starts| && starts[k] == j;
      assert MatchesAt(COUPLING, fs[k].pieces, text[j..]);
    }
  }

  /** At some offset the text reads a pair with a number beyond int. */
  ghost predicate HoldsLargeNumber(text: string) {
    exists i: nat, p :: CouplingAt(text, i, p) && (Denoted(p).0 > 2147483647 || Denoted(p).1 > 2147483647)
  }

  lemma FailureIsLarge(text: string)
    requires CouplingIn(text).Err?
    ensures HoldsLargeNumber(text) && CouplingIn(text).error == BadNumber(OutOfRange)
  {
    CouplingShape();
    assert text[0..] == text;
    FindAllInOrder(COUPLING, text, 0);
    var fs := CouplingMatches(text);
    var k := FirstFailure(PairOf, fs);
    PairDenoted(fs[k]);
    assert CouplingAt(text, Start(text, fs[k]), fs[k].pieces);
  }

  lemma LargeFails(text: string, i: nat, p: seq<string>)
    requires CouplingAt(text, i, p) && (Denoted(p).0 > 2147483647 || Denoted(p).1 > 2147483647)
    ensures CouplingIn(text).Err?
  {
    CouplingShape();
    assert text[0..] == text;
    FindAllInOrder(COUPLING, text, 0);
    var fs := CouplingMatches(text);
    assert Occurs(COUPLING, text, i);
    FindAllMissesNone(COUPLING, text, 0, i);
    var k :| 0 <= k < |fs| && Start(text, fs[k]) == i;
    MatchIsUnique(COUPLING, text[i..], p, fs[k].pieces);
    PairDenoted(fs[k]);
    TraverseOk(PairOf, fs);
  }

  /** Extraction fails exactly when some occurrence holds a number beyond int. */
  lemma CouplingFailsIff(text: string)
    ensures CouplingIn(text).Err? <==> HoldsLargeNumber(text)
    ensures CouplingIn(text).Err? ==> CouplingIn(text).error == BadNumber(OutOfRange)
  {
    if CouplingIn(text).Err? {
      FailureIsLarge(text);
    }
    if i: nat, p :| CouplingAt(text, i, p) && (Denoted(p).0 > 2147483647 || Denoted(p).1 > 2147483647) {
      LargeFails(text, i, p);
    }
  }

  lemma {:induction false} FirstFailure<A, B, E>(f: A -> Result<B, E>, xs: seq<A>) returns (k: nat)
    requires Traverse(f, xs).Err?
    ensures k < |xs| && f(xs[k]).Err? && Traverse(f, xs) == Err(f(xs[k]).error)
    ensures forall l :: 0 <= l < k ==> f(xs[l]).Ok?
  {
    if f(xs[0]).Err? {
      k := 0;
    } else {
      var l := FirstFailure(f, xs[1..]);
      k := l + 1;
      assert forall l :: 1 <= l < |xs| ==> xs[l] == xs[1..][l - 1];
    }
  }

  // ------------------------------------------------------------ gates

  predicate Known(name: string) {
    name in {"cz", "measure", "id", "r", "rx", "rz", "rxx", "if_else", "reset", "swap"}
  }

  lemma KnownIffTable(name: string)
    ensures Known(name) <==> GateProperties(name).Ok?
    ensures !Known(name) ==> GateProperties(name) == Err(UnknownGate(name))
  {
  }

  /** The table, read the other way: which gates act on two qubits and which take parameters. */
  lemma TableCounts(name: string)
    requires Known(name)
    ensures GateProperties(name).Ok?
    ensures GateProperties(name).value.0 == (if name in {"cz", "rxx", "swap"} then 2 else 1)
    ensures GateProperties(name).value.1 == (if name == "r" then 2 else if name in {"rx", "rz", "rxx"} then 1 else 0)
  {
  }

  /** The table, entry by entry. */
  lemma TableEntries()
    ensures GateProperties("cz") == Ok((2, 0)) && GateProperties("measure") == Ok((1, 0))
    ensures GateProperties("id") == Ok((1, 0)) && GateProperties("r") == Ok((1, 2))
    ensures GateProperties("rx") == Ok((1, 1)) && GateProperties("rz") == Ok((1, 1))
    ensures GateProperties("rxx") == Ok((2, 1)) && GateProperties("if_else") == Ok((1, 0))
    ensures GateProperties("reset") == Ok((1, 0)) && GateProperties("swap") == Ok((2, 0))
  {
  }

  lemma GateOfMatch(f: Found)
    ensures GateOf(f).Ok? <==> Known(NameIn(f)) && TuplesIn(BodyIn(f)).Ok?
    ensures GateOf(f).Ok? ==> GateSays(GateOf(f).value, f)
    ensures TuplesIn(BodyIn(f)).Ok? && !Known(NameIn(f)) ==> GateOf(f) == Err(UnknownGate(NameIn(f)))
  {
    KnownIffTable(NameIn(f));
  }

  /** The gate has the name, the table's counts and the tuples of the match f. */
  predicate GateSays(g: Gate, f: Found) {
    && g.name == NameIn(f)
    && TuplesIn(BodyIn(f)) == Ok(g.supportedQubits)
    && GateProperties(NameIn(f)) == Ok((g.qubitNumber, g.parameterNumber))
  }

  /** All numerals in the tuples of a gate's body are within int. */
  ghost predicate BodyFits(body: string) {
    forall k :: 0 <= k < |TupleMatches(body)| ==> NumeralsFit(Group(TupleMatches(body)[k], 0))
  }

  /** Reading the tuples of a body fails for numerals beyond int and for nothing else. */
  lemma TuplesOkIff(body: string)
    ensures TuplesIn(body).Ok? <==> BodyFits(body)
  {
    var fs := TupleMatches(body);
    TraverseOk(TupleOf, fs);
    forall k | 0 <= k < |fs| ensures TupleOf(fs[k]).Ok? <==> NumeralsFit(Group(fs[k], 0)) {
      QubitsOkIff(Group(fs[k], 0));
    }
  }

  /** Reading all gates succeeds exactly when every match names a gate of the table and every
      numeral in its tuples is within int; then the k-th gate has the name and tuples of the k-th
      match and of no other. */
  lemma GatesAreIndependent(text: string)
    ensures GatesIn(text).Ok? <==>
              forall k :: 0 <= k < |GateMatches(text)| ==>
                Known(NameIn(GateMatches(text)[k])) && BodyFits(BodyIn(GateMatches(text)[k]))
    ensures GatesIn(text).Ok? ==>
              |GatesIn(text).value| == |GateMatches(text)| &&
              forall k :: 0 <= k < |GateMatches(text)| ==> GateSays(GatesIn(text).value[k], GateMatches(text)[k])
  {
    var fs := GateMatches(text);
    TraverseOk(GateOf, fs);
    forall k | 0 <= k < |fs|
      ensures GateOf(fs[k]).Ok? <==> Known(NameIn(fs[k])) && BodyFits(BodyIn(fs[k]))
      ensures GateOf(fs[k]).Ok? ==> GateSays(GateOf(fs[k]).value, fs[k])
    {
      GateOfMatch(fs[k]);
      TuplesOkIff(BodyIn(fs[k]));
    }
  }

  /** The first match that is not a readable gate decides the error; nothing is returned for
      the matches before it. */
  lemma FirstBadGateDecides(text: string, k: nat)
    requires k < |GateMatches(text)| && forall l :: 0 <= l < k ==> GateOf(GateMatches(text)[l]).Ok?
    requires TuplesIn(BodyIn(GateMatches(text)[k])).Ok? && !Known(NameIn(GateMatches(text)[k]))
    ensures GatesIn(text) == Err(UnknownGate(NameIn(GateMatches(text)[k])))
  {
    GateOfMatch(GateMatches(text)[k]);
    TraverseErr(GateOf, GateMatches(text), k);
  }

  // ------------------------------------------------------------ printing

  /** The spacing and quotes of a printed gate list; Python's repr has single quotes and one
      space after each comma between name and tuples and after each colon. */
  datatype Style = Style(quote: char, afterOpen: string, beforeComma: string, afterComma: string,
                         beforeClose: string, beforeColon: string, afterColon: string)

  predicate StyleOk(st: Style) {
    && (st.quote == '\'' || st.quote == '"')
    && Blank(st.afterOpen) && Blank(st.beforeComma) && Blank(st.afterComma)
    && Blank(st.beforeClose) && Blank(st.beforeColon) && Blank(st.afterColon)
  }

  function PrintNumbers(qs: seq<nat>): string {
    if qs == [] then ""
    else if |qs| == 1 then Decimal(qs[0])
    else Decimal(qs[0]) + ", " + PrintNumbers(qs[1..])
  }

  /** A tuple without its closing parenthesis; one of one element keeps Python's comma. */
  function OpenTuple(qs: seq<nat>): string {
    "(" + PrintNumbers(qs) + (if |qs| == 1 then "," else "")
  }

  function EntryEnd(st: Style): seq<string> {
    [")", st.beforeColon, ":", st.afterColon, "N", "o", "n", "e"]
  }

  /** (q0, q1): None, (q2,): None, ... */
  function PrintEntries(tuples: seq<seq<nat>>, st: Style): string {
    if tuples == [] then ""
    else OpenTuple(tuples[0]) + Join(EntryEnd(st)) +
         (if |tuples| == 1 then "" else ", " + PrintEntries(tuples[1..], st))
  }

  datatype NativeGate = NativeGate(name: string, tuples: seq<seq<nat>>)

  function GatePieces(g: NativeGate, st: Style): seq<string> {
    ["(", st.afterOpen, [st.quote], g.name, [st.quote], st.beforeComma, ",", st.afterComma,
     "{", PrintEntries(g.tuples, st), "}", st.beforeClose, ")"]
  }

  function PrintList(gates: seq<NativeGate>, st: Style): string {
    if gates == [] then ""
    else Join(GatePieces(gates[0], st)) + (if |gates| == 1 then "" else ", " + PrintList(gates[1..], st))
  }

  /** [('name', {(q0, q1): None, ...}), ...] */
  function PrintGates(gates: seq<NativeGate>, st: Style): string {
    "[" + PrintList(gates, st) + "]"
  }

  function CouplingPieces(pair: (nat, nat), gap: string): seq<string> {
    ["[", Decimal(pair.0), ",", gap, Decimal(pair.1), "]"]
  }

  function PrintPairList(pairs: seq<(nat, nat)>, gap: string): string {
    if pairs == [] then ""
    else Join(CouplingPieces(pairs[0], gap)) + (if |pairs| == 1 then "" else ", " + PrintPairList(pairs[1..], gap))
  }

  /** [[a, b], [c, d], ...] with the given white space inside the pairs. */
  function PrintCoupling(pairs: seq<(nat, nat)>, gap: string): string {
    "[" + PrintPairList(pairs, gap) + "]"
  }

  // ------------------------------------------------------------ numbers round trip

  predicate NumbersFit(qs: seq<nat>) {
    forall i :: 0 <= i < |qs| ==> qs[i] <= INT_MAX
  }

  predicate NoDigits(s: string) {
    forall i :: 0 <= i < |s| ==> !IsDigit(s[i])
  }

  lemma NumberEngine(digits: string, rest: string)
    requires digits != "" && AllDigits(digits) && (rest == "" || !IsDigit(rest[0]))
    ensures Engine(NUMBER, digits + rest) == Some([digits])
  {
    var s := digits + rest;
    assert forall i :: 0 <= i < |digits| ==> s[i] == digits[i];
    assert rest != "" ==> s[|digits|] == rest[0];
    assert Longest(NUMBER[0], s) == |digits|;
    assert s[..|digits|] == digits;
    assert NUMBER[1..] == [];
    assert Engine(NUMBER[1..], s[|digits|..]) == Some([]);
    assert [digits] + [] == [digits];
  }

  lemma NumberMatch(digits: string, rest: string)
    requires digits != "" && AllDigits(digits) && (rest == "" || !IsDigit(rest[0]))
    ensures NumberMatches(digits + rest) == [Found([digits], rest)] + NumberMatches(rest)
  {
    Productivity();
    NumberEngine(digits, rest);
    assert (digits + rest)[|digits|..] == rest;
    assert Join([digits]) == digits;
  }

  /** Text without digits before the rest adds no number. */
  lemma NumberSkip(junk: string, s: string)
    requires NoDigits(junk)
    ensures NumberMatches(junk + s) == NumberMatches(s)
    ensures NumberMatches(junk) == []
  {
    Productivity();
    assert forall i :: 0 <= i < |junk| ==> !Has(NUMBER[0].cls, junk[i]);
    FindAllSkip(NUMBER, junk, s);
    FindAllNone(NUMBER, junk);
  }

  lemma OneNumber(text: string, junk: string, q: nat, rest: string)
    requires q <= INT_MAX && NoDigits(junk) && (rest == "" || !IsDigit(rest[0]))
    requires text == junk + (Decimal(q) + rest)
    ensures NumberMatches(text) == [Found([Decimal(q)], rest)] + NumberMatches(rest)
    ensures QubitOf(Found([Decimal(q)], rest)) == Ok(q)
  {
    NumberSkip(junk, Decimal(q) + rest);
    NumberMatch(Decimal(q), rest);
    StoiDigits(Decimal(q));
  }

  lemma PrintNumbersFirst(junk: string, qs: seq<nat>, tail: string, rest: string)
    requires qs != []
    requires rest == if |qs| == 1 then tail else ", " + PrintNumbers(qs[1..]) + tail
    ensures junk + PrintNumbers(qs) + tail == junk + (Decimal(qs[0]) + rest)
  {
    if |qs| > 1 {
      Regroup(junk, Decimal(qs[0]), ", ", PrintNumbers(qs[1..]), tail);
    } else {
      Regroup(junk, Decimal(qs[0]), "", "", tail);
    }
  }

  lemma Regroup(a: string, b: string, c: string, d: string, e: string)
    ensures a + (b + c + d) + e == a + (b + (c + d + e))
    ensures a + b + e == a + (b + e)
  {
  }

  function AfterFirstNumber(qs: seq<nat>, tail: string): string
    requires qs != []
  {
    if |qs| == 1 then tail else ", " + PrintNumbers(qs[1..]) + tail
  }

  lemma {:induction false} NumbersRoundTrip(text: string, junk: string, qs: seq<nat>, tail: string)
    requires NumbersFit(qs) && NoDigits(junk) && NoDigits(tail)
    requires text == junk + PrintNumbers(qs) + tail
    ensures QubitsIn(text) == Ok(qs)
    decreases |qs|
  {
    if qs == [] {
      NumberSkip(text, "");
    } else {
      var rest := AfterFirstNumber(qs, tail);
      if |qs| == 1 {
        NumberSkip(tail, "");
        assert qs[1..] == [];
      } else {
        NumbersRoundTrip(rest, ", ", qs[1..], tail);
      }
      PrintNumbersFirst(junk, qs, tail, rest);
      OneNumber(text, junk, qs[0], rest);
      TraverseMore(QubitOf, Found([Decimal(qs[0])], rest), NumberMatches(rest), qs);
    }
  }

  // ------------------------------------------------------------ numerals in any text

  /** s[i..j] is a numeral of s: digits with none before and none after them. */
  ghost predicate NumeralAt(s: string, i: nat, j: nat) {
    && i < j <= |s| && (forall k :: i <= k < j ==> IsDigit(s[k]))
    && (i > 0 ==> !IsDigit(s[i - 1])) && (j < |s| ==> !IsDigit(s[j]))
  }

  ghost predicate NumeralsFit(s: string) {
    forall i: nat, j: nat :: NumeralAt(s, i, j) ==> Value(s[i..j]) <= 2147483647
  }

  /** s is a text without digits, digits, and a rest that does not begin with one. */
  ghost predicate FirstNumeral(s: string, junk: string, digits: string, rest: string) {
    && s == junk + (digits + rest) && NoDigits(junk)
    && digits != "" && AllDigits(digits) && (rest == "" || !IsDigit(rest[0]))
  }

  /** A text that begins with a digit. */
  lemma DigitsAndRest(t: string) returns (digits: string, rest: string)
    requires t != "" && IsDigit(t[0])
    ensures t == digits + rest && digits != "" && AllDigits(digits) && (rest == "" || !IsDigit(rest[0]))
  {
    var m := Span(IsDigit, t);
    digits, rest := t[..m], t[m..];
  }

  lemma SplitNumeral(s: string) returns (junk: string, digits: string, rest: string)
    requires !NoDigits(s)
    ensures FirstNumeral(s, junk, digits, rest)
  {
    var n := Span(c => !IsDigit(c), s);
    junk := s[..n];
    assert n < |s| && s == junk + s[n..];
    digits, rest := DigitsAndRest(s[n..]);
  }

  lemma FirstNumeralAt(s: string, junk: string, digits: string, rest: string)
    requires FirstNumeral(s, junk, digits, rest)
    ensures var n := |junk| + |digits|;
            && NumeralAt(s, |junk|, n) && s[|junk|..n] == digits && s[n..] == rest
            && forall k :: 0 <= k < |junk| ==> !IsDigit(s[k])
  {
    var n := |junk| + |digits|;
    assert s[|junk|..n] == digits && s[n..] == rest;
    assert forall k :: 0 <= k < |junk| ==> s[k] == junk[k];
    assert forall k :: |junk| <= k < n ==> s[k] == digits[k - |junk|];
    assert n < |s| ==> s[n] == rest[0];
  }

  /** Numerals that do not begin at the cut are those of the rest. */
  lemma NumeralAfter(s: string, n: nat, i: nat, j: nat)
    requires n <= |s| && i > 0
    ensures NumeralAt(s[n..], i, j) <==> NumeralAt(s, n + i, n + j)
    ensures NumeralAt(s[n..], i, j) ==> s[n..][i..j] == s[n + i..n + j]
  {
    assert forall k :: 0 <= k < |s[n..]| ==> s[n..][k] == s[n + k];
    if NumeralAt(s[n..], i, j) {
      assert forall k :: n + i <= k < n + j ==> s[k] == s[n..][k - n];
    }
  }

  /** Every numeral is the first one or begins after its end. */
  lemma FirstOrAfter(s: string, a: nat, n: nat, i: nat, j: nat)
    requires NumeralAt(s, a, n) && (forall k :: 0 <= k < a ==> !IsDigit(s[k]))
    requires NumeralAt(s, i, j)
    ensures (i == a && j == n) || i > n
  {
    assert IsDigit(s[i]);
    if i < n {
      OneNumeral(s, a, n, i, j);
    }
  }

  /** Two numerals that overlap are the same. */
  lemma OneNumeral(s: string, i: nat, j: nat, k: nat, l: nat)
    requires NumeralAt(s, i, j) && NumeralAt(s, k, l) && i <= k < j
    ensures i == k && j == l
  {
  }

  lemma NumeralsFitFirst(s: string, a: nat, n: nat)
    requires NumeralAt(s, a, n) && (forall k :: 0 <= k < a ==> !IsDigit(s[k]))
    ensures NumeralsFit(s) <==> Value(s[a..n]) <= INT_MAX && NumeralsFit(s[n..])
  {
    if NumeralsFit(s) {
      forall i: nat, j: nat | NumeralAt(s[n..], i, j) ensures Value(s[n..][i..j]) <= INT_MAX {
        assert IsDigit(s[n..][i]) && i > 0;
        NumeralAfter(s, n, i, j);
      }
    }
    if Value(s[a..n]) <= INT_MAX && NumeralsFit(s[n..]) {
      forall i: nat, j: nat | NumeralAt(s, i, j) ensures Value(s[i..j]) <= INT_MAX {
        FirstOrAfter(s, a, n, i, j);
        if i > n {
          NumeralAfter(s, n, i - n, j - n);
        }
      }
    }
  }

  lemma NumeralsSplit(s: string, junk: string, digits: string, rest: string)
    requires FirstNumeral(s, junk, digits, rest)
    ensures NumeralsFit(s) <==> Value(digits) <= INT_MAX && NumeralsFit(rest)
  {
    FirstNumeralAt(s, junk, digits, rest);
    NumeralsFitFirst(s, |junk|, |junk| + |digits|);
  }

  lemma NotNumeral(s: string, i: nat, j: nat)
    requires NoDigits(s)
    ensures !NumeralAt(s, i, j)
  {
    if i < |s| {
      assert !IsDigit(s[i]);
    }
  }

  lemma NoNumeral(s: string)
    requires NoDigits(s)
    ensures NumeralsFit(s) && QubitsIn(s) == Ok([])
  {
    NumberSkip(s, "");
    forall i: nat, j: nat ensures !NumeralAt(s, i, j) {
      NotNumeral(s, i, j);
    }
  }

  lemma FirstQubit(s: string, junk: string, digits: string, rest: string)
    requires FirstNumeral(s, junk, digits, rest)
    ensures QubitsIn(s).Ok? <==> Value(digits) <= INT_MAX && QubitsIn(rest).Ok?
  {
    var first := Found([digits], rest);
    NumberSkip(junk, digits + rest);
    NumberMatch(digits, rest);
    StoiDigits(digits);
    assert NumberMatches(s)[0] == first && NumberMatches(s)[1..] == NumberMatches(rest);
    assert QubitOf(first).Ok? <==> Value(digits) <= INT_MAX;
  }

  /** Reading the numbers of any text succeeds exactly when all its numerals are within int. */
  lemma {:induction false} QubitsOkIff(s: string)
    ensures QubitsIn(s).Ok? <==> NumeralsFit(s)
    decreases |s|
  {
    if NoDigits(s) {
      NoNumeral(s);
    } else {
      var junk, digits, rest := SplitNumeral(s);
      NumeralsSplit(s, junk, digits, rest);
      FirstQubit(s, junk, digits, rest);
      QubitsOkIff(rest);
    }
  }

  // ------------------------------------------------------------ tuples round trip

  predicate TuplesFit(tuples: seq<seq<nat>>) {
    forall i :: 0 <= i < |tuples| ==> NumbersFit(tuples[i])
  }

  /** No parenthesis is closed, so no tuple ends. */
  lemma NoTuple(s: string)
    requires ')' !in s
    ensures TupleMatches(s) == []
    decreases |s|
  {
    Productivity();
    EngineSound(TUPLE, s);
    if Engine(TUPLE, s).Some? {
      var p := Engine(TUPLE, s).value;
      assert PieceFits(TUPLE[1], p[1]) && p[1][0] == ')';
      assert ')' in p[1];
      InJoin(p, 1);
    } else if s != "" {
      FindAllStep(TUPLE, s);
      NoTuple(s[1..]);
    }
  }

  lemma {:induction false} InJoin(pieces: seq<string>, k: nat)
    requires k < |pieces|
    ensures forall c :: c in pieces[k] ==> c in Join(pieces)
  {
    if k > 0 {
      InJoin(pieces[1..], k - 1);
    }
  }

  predicate NoParens(s: string) {
    ')' !in s
  }

  lemma {:induction false} PrintNumbersPlain(qs: seq<nat>)
    ensures forall c :: c in PrintNumbers(qs) ==> IsDigit(c) || c == ',' || c == ' '
  {
    if |qs| > 1 {
      PrintNumbersPlain(qs[1..]);
    }
  }

  /** The pieces of one printed entry, with the text before it in the first. */
  function TuplePieces(lead: string, qs: seq<nat>, st: Style): seq<string> {
    [lead + OpenTuple(qs)] + EntryEnd(st)
  }

  lemma TuplePiecesFit(lead: string, qs: seq<nat>, st: Style)
    requires StyleOk(st) && NoParens(lead)
    ensures Fits(TUPLE, TuplePieces(lead, qs, st))
    ensures Join(TuplePieces(lead, qs, st)) == lead + OpenTuple(qs) + Join(EntryEnd(st))
  {
    PrintNumbersPlain(qs);
    var pieces := TuplePieces(lead, qs, st);
    assert pieces[1..] == EntryEnd(st);
    forall i | 0 <= i < |pieces[0]| ensures Has(NotParen, pieces[0][i]) {
      assert pieces[0][i] in lead || pieces[0][i] in "(" || pieces[0][i] in PrintNumbers(qs) || pieces[0][i] == ',';
    }
    assert PieceFits(TUPLE[0], pieces[0]) && PieceFits(TUPLE[1], pieces[1]) && PieceFits(TUPLE[2], pieces[2]);
    assert PieceFits(TUPLE[3], pieces[3]) && PieceFits(TUPLE[4], pieces[4]) && PieceFits(TUPLE[5], pieces[5]);
    assert PieceFits(TUPLE[6], pieces[6]) && PieceFits(TUPLE[7], pieces[7]) && PieceFits(TUPLE[8], pieces[8]);
  }

  lemma OneTuple(text: string, lead: string, qs: seq<nat>, st: Style, rest: string)
    requires StyleOk(st) && NoParens(lead) && NoDigits(lead) && NumbersFit(qs)
    requires text == lead + OpenTuple(qs) + Join(EntryEnd(st)) + rest
    ensures TupleMatches(text) == [Found(TuplePieces(lead, qs, st), rest)] + TupleMatches(rest)
    ensures TupleOf(Found(TuplePieces(lead, qs, st), rest)) == Ok(qs)
  {
    TupleShape();
    TuplePiecesFit(lead, qs, st);
    FindAllMatch(TUPLE, TuplePieces(lead, qs, st), rest);
    TupleMeans(Found(TuplePieces(lead, qs, st), rest), lead, qs);
  }

  lemma TupleMeans(f: Found, lead: string, qs: seq<nat>)
    requires NoDigits(lead) && NumbersFit(qs) && Group(f, 0) == lead + OpenTuple(qs)
    ensures TupleOf(f) == Ok(qs)
  {
    var tail := if |qs| == 1 then "," else "";
    assert Group(f, 0) == lead + "(" + PrintNumbers(qs) + tail;
    NumbersRoundTrip(Group(f, 0), lead + "(", qs, tail);
  }

  function AfterFirstTuple(tuples: seq<seq<nat>>, st: Style): string
    requires tuples != []
  {
    if |tuples| == 1 then "}" else ", " + PrintEntries(tuples[1..], st) + "}"
  }

  lemma FirstTuple(text: string, lead: string, tuples: seq<seq<nat>>, st: Style)
    requires tuples != [] && text == lead + PrintEntries(tuples, st) + "}"
    ensures text == lead + OpenTuple(tuples[0]) + Join(EntryEnd(st)) + AfterFirstTuple(tuples, st)
  {
    if |tuples| == 1 {
      RegroupEntry(lead, OpenTuple(tuples[0]), Join(EntryEnd(st)), "", "", "}");
    } else {
      RegroupEntry(lead, OpenTuple(tuples[0]), Join(EntryEnd(st)), ", ", PrintEntries(tuples[1..], st), "}");
    }
  }

  lemma RegroupEntry(a: string, o: string, j: string, c: string, d: string, e: string)
    ensures a + (o + j + (c + d)) + e == a + o + j + (c + d + e)
    ensures a + (o + j + "") + e == a + o + j + e
  {
  }

  lemma {:induction false} TuplesRoundTrip(text: string, lead: string, tuples: seq<seq<nat>>, st: Style)
    requires StyleOk(st) && NoParens(lead) && NoDigits(lead) && TuplesFit(tuples)
    requires text == lead + PrintEntries(tuples, st) + "}"
    ensures TuplesIn(text) == Ok(tuples)
    decreases |tuples|
  {
    if tuples == [] {
      NoTuple(text);
    } else {
      var rest := AfterFirstTuple(tuples, st);
      if |tuples| == 1 {
        NoTuple(rest);
        assert tuples[1..] == [];
      } else {
        TuplesRoundTrip(rest, ", ", tuples[1..], st);
      }
      FirstTuple(text, lead, tuples, st);
      OneTuple(text, lead, tuples[0], st, rest);
      TraverseMore(TupleOf, Found(TuplePieces(lead, tuples[0], st), rest), TupleMatches(rest), tuples);
    }
  }

  // ------------------------------------------------------------ gates round trip

  lemma {:induction false} PrintEntriesPlain(tuples: seq<seq<nat>>, st: Style)
    requires StyleOk(st)
    ensures forall c :: c in PrintEntries(tuples, st) ==> c != '{' && c != '}'
  {
    if tuples != [] {
      PrintNumbersPlain(tuples[0]);
      assert forall c :: c in OpenTuple(tuples[0]) ==> c != '{' && c != '}';
      TuplePiecesFit("", [], st);
      EntryEndPlain(st);
      if |tuples| > 1 {
        PrintEntriesPlain(tuples[1..], st);
      }
    }
  }

  lemma EntryEndPlain(st: Style)
    requires StyleOk(st)
    ensures forall c :: c in Join(EntryEnd(st)) ==> c != '{' && c != '}'
  {
    var pieces := EntryEnd(st);
    JoinPlain(pieces);
  }

  lemma {:induction false} JoinPlain(pieces: seq<string>)
    requires forall k, c :: 0 <= k < |pieces| && c in pieces[k] ==> c != '{' && c != '}'
    ensures forall c :: c in Join(pieces) ==> c != '{' && c != '}'
  {
    if pieces != [] {
      assert forall k, c :: 0 <= k < |pieces| - 1 && c in pieces[1..][k] ==> c in pieces[k + 1];
      JoinPlain(pieces[1..]);
    }
  }

  predicate Quotable(name: string) {
    name != "" && forall i :: 0 <= i < |name| ==> name[i] != '\'' && name[i] != '"'
  }

  lemma GateFrontFits(g: NativeGate, st: Style)
    requires StyleOk(st) && Quotable(g.name)
    ensures forall k :: 0 <= k < 8 ==> PieceFits(GATE[k], GatePieces(g, st)[k])
  {
    var p := GatePieces(g, st);
    assert PieceFits(GATE[0], p[0]) && PieceFits(GATE[1], p[1]) && PieceFits(GATE[2], p[2]);
    assert PieceFits(GATE[3], p[3]) && PieceFits(GATE[4], p[4]) && PieceFits(GATE[5], p[5]);
    assert PieceFits(GATE[6], p[6]) && PieceFits(GATE[7], p[7]);
  }

  lemma GateBackFits(g: NativeGate, st: Style)
    requires StyleOk(st)
    ensures forall k :: 8 <= k < 13 ==> PieceFits(GATE[k], GatePieces(g, st)[k])
  {
    PrintEntriesPlain(g.tuples, st);
    var p := GatePieces(g, st);
    assert forall i :: 0 <= i < |p[9]| ==> p[9][i] in PrintEntries(g.tuples, st);
    assert PieceFits(GATE[8], p[8]) && PieceFits(GATE[9], p[9]) && PieceFits(GATE[10], p[10]);
    assert PieceFits(GATE[11], p[11]) && PieceFits(GATE[12], p[12]);
  }

  lemma GatePiecesFit(g: NativeGate, st: Style)
    requires StyleOk(st) && Quotable(g.name)
    ensures Fits(GATE, GatePieces(g, st))
  {
    GateFrontFits(g, st);
    GateBackFits(g, st);
  }

  /** What the printed gate stands for: its own name and tuples with the table's counts. */
  function Meant(g: NativeGate): Gate
    requires Known(g.name)
  {
    var p := GateProperties(g.name).value;
    Gate(g.name, p.0, p.1, g.tuples)
  }

  predicate Printable(gates: seq<NativeGate>) {
    forall i :: 0 <= i < |gates| ==> Known(gates[i].name) && TuplesFit(gates[i].tuples)
  }

  function AllMeant(gates: seq<NativeGate>): seq<Gate>
    requires Printable(gates)
  {
    seq(|gates|, i requires 0 <= i < |gates| => Meant(gates[i]))
  }

  lemma BodyMeans(f: Found, g: NativeGate, st: Style)
    requires StyleOk(st) && TuplesFit(g.tuples) && BodyIn(f) == "{" + PrintEntries(g.tuples, st) + "}"
    ensures TuplesIn(BodyIn(f)) == Ok(g.tuples)
  {
    TuplesRoundTrip(BodyIn(f), "{", g.tuples, st);
  }

  lemma GateFrom(f: Found, g: NativeGate)
    requires NameIn(f) == g.name && Known(g.name) && TuplesIn(BodyIn(f)) == Ok(g.tuples)
    ensures GateOf(f) == Ok(Meant(g))
  {
  }

  lemma GateMeans(g: NativeGate, st: Style, rest: string)
    requires StyleOk(st) && Known(g.name) && TuplesFit(g.tuples)
    ensures GateOf(Found(GatePieces(g, st), rest)) == Ok(Meant(g))
  {
    var f := Found(GatePieces(g, st), rest);
    GroupsOfPieces(g, st, rest);
    BodyMeans(f, g, st);
    GateFrom(f, g);
  }

  lemma GroupsOfPieces(g: NativeGate, st: Style, rest: string)
    ensures NameIn(Found(GatePieces(g, st), rest)) == g.name
    ensures BodyIn(Found(GatePieces(g, st), rest)) == "{" + PrintEntries(g.tuples, st) + "}"
  {
  }

  predicate NoOpening(junk: string) {
    forall i :: 0 <= i < |junk| ==> junk[i] != '('
  }

  lemma NoGate(junk: string)
    requires NoOpening(junk)
    ensures GateMatches(junk) == [] && GatesIn(junk) == Ok([])
  {
    Productivity();
    FindAllNone(GATE, junk);
  }

  lemma OneGate(text: string, junk: string, g: NativeGate, st: Style, rest: string)
    requires StyleOk(st) && NoOpening(junk) && Quotable(g.name)
    requires text == junk + (Join(GatePieces(g, st)) + rest)
    ensures GateMatches(text) == [Found(GatePieces(g, st), rest)] + GateMatches(rest)
  {
    GateShape();
    GatePiecesFit(g, st);
    FindAllSkip(GATE, junk, Join(GatePieces(g, st)) + rest);
    FindAllMatch(GATE, GatePieces(g, st), rest);
  }

  /** The text after the first printed gate. */
  function AfterFirstGate(gates: seq<NativeGate>, st: Style): string
    requires gates != []
  {
    if |gates| == 1 then "]" else ", " + PrintList(gates[1..], st) + "]"
  }

  lemma FirstGate(text: string, junk: string, gates: seq<NativeGate>, st: Style)
    requires StyleOk(st) && NoOpening(junk) && Printable(gates) && gates != []
    requires text == junk + PrintList(gates, st) + "]"
    ensures text == junk + (Join(GatePieces(gates[0], st)) + AfterFirstGate(gates, st))
  {
    if |gates| == 1 {
      Regroup(junk, Join(GatePieces(gates[0], st)), "", "", "]");
    } else {
      Regroup(junk, Join(GatePieces(gates[0], st)), ", ", PrintList(gates[1..], st), "]");
    }
  }

  lemma KnownIsQuotable(name: string)
    requires Known(name)
    ensures Quotable(name)
  {
  }

  lemma MeantFirst(gates: seq<NativeGate>)
    requires Printable(gates) && gates != []
    ensures AllMeant(gates)[0] == Meant(gates[0]) && AllMeant(gates)[1..] == AllMeant(gates[1..])
  {
  }

  lemma {:induction false} GateListRoundTrip(text: string, junk: string, gates: seq<NativeGate>, st: Style)
    requires StyleOk(st) && NoOpening(junk) && Printable(gates)
    requires text == junk + PrintList(gates, st) + "]"
    ensures GatesIn(text) == Ok(AllMeant(gates))
    decreases |gates|
  {
    if gates == [] {
      NoGate(text);
      assert AllMeant(gates) == [];
    } else {
      var rest := AfterFirstGate(gates, st);
      if |gates| == 1 {
        NoGate(rest);
        assert AllMeant(gates[1..]) == [];
      } else {
        GateListRoundTrip(rest, ", ", gates[1..], st);
      }
      FirstGate(text, junk, gates, st);
      KnownIsQuotable(gates[0].name);
      OneGate(text, junk, gates[0], st, rest);
      GateMeans(gates[0], st, rest);
      MeantFirst(gates);
      TraverseMore(GateOf, Found(GatePieces(gates[0], st), rest), GateMatches(rest), AllMeant(gates));
    }
  }

  /** Printing gates of the table in any style and reading the text gives them back in order,
      tuples unchanged, with the table's counts. */
  lemma GatesRoundTrip(gates: seq<NativeGate>, st: Style)
    requires StyleOk(st) && Printable(gates)
    ensures GatesIn(PrintGates(gates, st)) == Ok(AllMeant(gates))
  {
    GateListRoundTrip(PrintGates(gates, st), "[", gates, st);
  }

  // ------------------------------------------------------------ couplings round trip

  predicate PairsFit(pairs: seq<(nat, nat)>) {
    forall i :: 0 <= i < |pairs| ==> pairs[i].0 <= INT_MAX && pairs[i].1 <= INT_MAX
  }

  function Row(pair: (nat, nat)): seq<int> {
    [pair.0, pair.1]
  }

  function Rows(pairs: seq<(nat, nat)>): seq<seq<int>> {
    seq(|pairs|, i requires 0 <= i < |pairs| => Row(pairs[i]))
  }

  lemma RowsFirst(pairs: seq<(nat, nat)>)
    requires pairs != []
    ensures Rows(pairs)[0] == Row(pairs[0]) && Rows(pairs)[1..] == Rows(pairs[1..])
  {
  }

  lemma NoCoupling(junk: string)
    requires '[' !in junk
    ensures CouplingMatches(junk) == [] && CouplingIn(junk) == Ok([])
  {
    Productivity();
    FindAllNone(COUPLING, junk);
  }

  lemma CouplingPiecesFit(pair: (nat, nat), gap: string)
    requires Blank(gap)
    ensures Fits(COUPLING, CouplingPieces(pair, gap))
  {
    var p := CouplingPieces(pair, gap);
    assert PieceFits(COUPLING[0], p[0]) && PieceFits(COUPLING[1], p[1]) && PieceFits(COUPLING[2], p[2]);
    assert PieceFits(COUPLING[3], p[3]) && PieceFits(COUPLING[4], p[4]) && PieceFits(COUPLING[5], p[5]);
  }

  lemma OneCoupling(text: string, junk: string, pair: (nat, nat), gap: string, rest: string)
    requires Blank(gap) && '[' !in junk && pair.0 <= INT_MAX && pair.1 <= INT_MAX
    requires text == junk + (Join(CouplingPieces(pair, gap)) + rest)
    ensures CouplingMatches(text) == [Found(CouplingPieces(pair, gap), rest)] + CouplingMatches(rest)
    ensures PairOf(Found(CouplingPieces(pair, gap), rest)) == Ok(Row(pair))
  {
    CouplingShape();
    CouplingPiecesFit(pair, gap);
    FindAllSkip(COUPLING, junk, Join(CouplingPieces(pair, gap)) + rest);
    FindAllMatch(COUPLING, CouplingPieces(pair, gap), rest);
    PairDenoted(Found(CouplingPieces(pair, gap), rest));
  }

  function AfterFirstPair(pairs: seq<(nat, nat)>, gap: string): string
    requires pairs != []
  {
    if |pairs| == 1 then "]" else ", " + PrintPairList(pairs[1..], gap) + "]"
  }

  lemma FirstPair(text: string, junk: string, pairs: seq<(nat, nat)>, gap: string)
    requires pairs != [] && text == junk + PrintPairList(pairs, gap) + "]"
    ensures text == junk + (Join(CouplingPieces(pairs[0], gap)) + AfterFirstPair(pairs, gap))
  {
    if |pairs| == 1 {
      Regroup(junk, Join(CouplingPieces(pairs[0], gap)), "", "", "]");
    } else {
      Regroup(junk, Join(CouplingPieces(pairs[0], gap)), ", ", PrintPairList(pairs[1..], gap), "]");
    }
  }

  lemma {:induction false} PairListRoundTrip(text: string, junk: string, pairs: seq<(nat, nat)>, gap: string)
    requires Blank(gap) && '[' !in junk && PairsFit(pairs) && text == junk + PrintPairList(pairs, gap) + "]"
    ensures CouplingIn(text) == Ok(Rows(pairs))
    decreases |pairs|
  {
    if pairs == [] {
      NoCoupling(text);
      assert Rows(pairs) == [];
    } else {
      var rest := AfterFirstPair(pairs, gap);
      if |pairs| == 1 {
        NoCoupling(rest);
        assert Rows(pairs[1..]) == [];
      } else {
        PairListRoundTrip(rest, ", ", pairs[1..], gap);
      }
      FirstPair(text, junk, pairs, gap);
      OneCoupling(text, junk, pairs[0], gap, rest);
      RowsFirst(pairs);
      TraverseMore(PairOf, Found(CouplingPieces(pairs[0], gap), rest), CouplingMatches(rest), Rows(pairs));
    }
  }

  /** The outer bracket opens no pair: it is followed by another bracket. */
  lemma OuterBracket(s: string)
    requires s != "" && !IsDigit(s[0])
    ensures CouplingMatches("[" + s) == CouplingMatches(s)
  {
    Productivity();
    var text := "[" + s;
    EngineSound(COUPLING, text);
    if Engine(COUPLING, text).Some? {
      var p := Engine(COUPLING, text).value;
      FitsTail(COUPLING, p);
      FirstPiece(COUPLING[1..], text[1..], p[1..]);
    }
    FindAllStep(COUPLING, text);
    assert text[1..] == s;
  }

  /** Printing any list of pairs within int and reading the text gives the pairs back in order. */
  lemma CouplingRoundTrip(pairs: seq<(nat, nat)>, gap: string)
    requires PairsFit(pairs) && Blank(gap)
    ensures CouplingIn(PrintCoupling(pairs, gap)) == Ok(Rows(pairs))
  {
    var s := PrintPairList(pairs, gap) + "]";
    assert PrintCoupling(pairs, gap) == "[" + s;
    assert !IsDigit(s[0]) by {
      if pairs != [] {
        assert Join(CouplingPieces(pairs[0], gap))[0] == '[';
      }
    }
    OuterBracket(s);
    assert "" + PrintPairList(pairs, gap) + "]" == s;
    PairListRoundTrip(s, "", pairs, gap);
  }
}
