/** Coupling pairs and native gates read out of the Python-repr texts of a resource. */
module ResourceParser {
  import opened Wrappers
  import opened Text
  import opened Regex
  import opened Json

  /** \[(\d+),\s*(\d+)\] */
  const COUPLING: Pattern :=
    [One(Just('[')), Plus(Digit), One(Just(',')), Star(Space), Plus(Digit), One(Just(']'))]

  /** \(\s*['"]([^'"]+)['"]\s*,\s*(\{[^{}]*\})\s*\) */
  const GATE: Pattern :=
    [One(Just('(')), Star(Space), One(Quote), Plus(NotQuote), One(Quote), Star(Space), One(Just(',')),
     Star(Space), One(Just('{')), Star(NotBrace), One(Just('}')), Star(Space), One(Just(')'))]

  /** ([^)]*)\)\s*:\s*None */
  const TUPLE: Pattern :=
    [Star(NotParen), One(Just(')')), Star(Space), One(Just(':')), Star(Space),
     One(Just('N')), One(Just('o')), One(Just('n')), One(Just('e'))]

  /** \d+ */
  const NUMBER: Pattern := [Plus(Digit)]

  datatype Gate = Gate(name: string, qubitNumber: nat, parameterNumber: nat, supportedQubits: seq<seq<nat>>)

  datatype ParseError = BadNumber(reason: StoiError) | UnknownGate(name: string)

  // ------------------------------------------------------------ what one match says

  function Group(f: Found, k: nat): string {
    if k < |f.pieces| then f.pieces[k] else ""
  }

  function Number(digits: string): Result<int, ParseError> {
    match Stoi(digits)
    case Ok(v) => Ok(v)
    case Err(e) => Err(BadNumber(e))
  }

  function Pair(a: Result<int, ParseError>, b: Result<int, ParseError>): Result<seq<int>, ParseError> {
    if a.Err? then Err(a.error) else if b.Err? then Err(b.error) else Ok([a.value, b.value])
  }

  function PairOf(f: Found): Result<seq<int>, ParseError> {
    Pair(Number(Group(f, 1)), Number(Group(f, 4)))
  }

  function QubitOf(f: Found): Result<nat, ParseError> {
    match Number(Group(f, 0))
    case Err(e) => Err(e)
    case Ok(v) => Ok(Uint32(v))
  }

  lemma Productivity()
    ensures Productive(COUPLING) && Productive(GATE) && Productive(TUPLE) && Productive(NUMBER)
  {
    assert !COUPLING[0].Star? && !GATE[0].Star? && !TUPLE[1].Star? && !NUMBER[0].Star?;
  }

  function NumberMatches(tupleText: string): seq<Found> {
    Productivity();
    FindAll(NUMBER, tupleText)
  }

  function QubitsIn(tupleText: string): Result<seq<nat>, ParseError> {
    Traverse(QubitOf, NumberMatches(tupleText))
  }

  function TupleOf(f: Found): Result<seq<nat>, ParseError> {
    QubitsIn(Group(f, 0))
  }

  function TupleMatches(body: string): seq<Found> {
    Productivity();
    FindAll(TUPLE, body)
  }

  function TuplesIn(body: string): Result<seq<seq<nat>>, ParseError> {
    Traverse(TupleOf, TupleMatches(body))
  }

  function GateProperties(name: string): Result<(nat, nat), ParseError> {
    if name == "cz" then Ok((2, 0))
    else if name == "measure" then Ok((1, 0))
    else if name == "id" then Ok((1, 0))
    else if name == "r" then Ok((1, 2))
    else if name == "rx" then Ok((1, 1))
    else if name == "rz" then Ok((1, 1))
    else if name == "rxx" then Ok((2, 1))
    else if name == "if_else" then Ok((1, 0))
    else if name == "reset" then Ok((1, 0))
    else if name == "swap" then Ok((2, 0))
    else Err(UnknownGate(name))
  }

  function NameIn(f: Found): string {
    Group(f, 3)
  }

  function BodyIn(f: Found): string {
    Group(f, 8) + Group(f, 9) + Group(f, 10)
  }

  /** The gate one match stands for. It is a function of that match alone. */
  function GateOf(f: Found): Result<Gate, ParseError> {
    match TuplesIn(BodyIn(f))
    case Err(e) => Err(e)
    case Ok(tuples) =>
      match GateProperties(NameIn(f))
      case Err(e) => Err(e)
      case Ok(p) => Ok(Gate(NameIn(f), p.0, p.1, tuples))
  }

  function CouplingMatches(text: string): seq<Found> {
    Productivity();
    FindAll(COUPLING, text)
  }

  function CouplingIn(text: string): Result<seq<seq<int>>, ParseError> {
    Traverse(PairOf, CouplingMatches(text))
  }

  function GateMatches(text: string): seq<Found> {
    Productivity();
    FindAll(GATE, text)
  }

  function GatesIn(text: string): Result<seq<Gate>, ParseError> {
    Traverse(GateOf, GateMatches(text))
  }

  // ------------------------------------------------------------ the extraction loops

  lemma NoneHasNothing()
    ensures CouplingIn("None") == Ok([]) && GatesIn("None") == Ok([])
  {
    Productivity();
    FindAllNone(COUPLING, "None");
    FindAllNone(GATE, "None");
  }

  method ExtractCouplingMap(response: Json, key: string) returns (r: Result<seq<seq<int>>, ParseError>)
    ensures r == match TextAt(response, key) case None => Ok([]) case Some(text) => CouplingIn(text)
  {
    Productivity();
    var result: seq<seq<int>> := [];
    var member := Find(response, key);
    if member.None? || !member.value.Str? {
      return Ok(result);
    }
    var text := member.value.s;
    if text == "None" {
      NoneHasNothing();
      return Ok(result);
    }
    var rest := text;
    var it := Search(COUPLING, rest);
    VisitStart(COUPLING, PairOf, text);
    while it.Some?
      invariant it == Search(COUPLING, rest)
      invariant CouplingIn(text) == Prepend(result, Visit(COUPLING, PairOf, rest))
      decreases |rest|
    {
      VisitStep(COUPLING, PairOf, rest, result);
      var a := Stoi(Group(it.value, 1));
      if a.Err? {
        return Err(BadNumber(a.error));
      }
      var b := Stoi(Group(it.value, 4));
      if b.Err? {
        return Err(BadNumber(b.error));
      }
      var pairs := [a.value, b.value];
      result := result + [pairs];
      rest := it.value.rest;
      it := Search(COUPLING, rest);
    }
    VisitStep(COUPLING, PairOf, rest, result);
    return Ok(result);
  }

  method ExtractQubits(tupleText: string) returns (r: Result<seq<nat>, ParseError>)
    ensures r == QubitsIn(tupleText)
  {
    Productivity();
    var qubits: seq<nat> := [];
    var rest := tupleText;
    var it := Search(NUMBER, rest);
    VisitStart(NUMBER, QubitOf, tupleText);
    while it.Some?
      invariant it == Search(NUMBER, rest)
      invariant QubitsIn(tupleText) == Prepend(qubits, Visit(NUMBER, QubitOf, rest))
      decreases |rest|
    {
      VisitStep(NUMBER, QubitOf, rest, qubits);
      var q := Stoi(Group(it.value, 0));
      if q.Err? {
        return Err(BadNumber(q.error));
      }
      qubits := qubits + [Uint32(q.value)];
      rest := it.value.rest;
      it := Search(NUMBER, rest);
    }
    VisitStep(NUMBER, QubitOf, rest, qubits);
    return Ok(qubits);
  }

  /** One accumulator serves all gates; moving it into a gate empties it for the next. */
  method ExtractGates(response: Json, key: string) returns (r: Result<seq<Gate>, ParseError>)
    ensures r == match TextAt(response, key) case None => Ok([]) case Some(text) => GatesIn(text)
  {
    Productivity();
    var result: seq<Gate> := [];
    var member := Find(response, key);
    if member.None? || !member.value.Str? {
      return Ok(result);
    }
    var text := member.value.s;
    if text == "None" {
      NoneHasNothing();
      return Ok(result);
    }
    var supportedQubits: seq<seq<nat>> := [];
    var rest := text;
    var it := Search(GATE, rest);
    VisitStart(GATE, GateOf, text);
    while it.Some?
      invariant it == Search(GATE, rest) && supportedQubits == []
      invariant GatesIn(text) == Prepend(result, Visit(GATE, GateOf, rest))
      decreases |rest|
    {
      VisitStep(GATE, GateOf, rest, result);
      var gateName := NameIn(it.value);
      var body := BodyIn(it.value);
      var bodyRest := body;
      var jt := Search(TUPLE, bodyRest);
      VisitStart(TUPLE, TupleOf, body);
      while jt.Some?
        invariant jt == Search(TUPLE, bodyRest)
        invariant TuplesIn(body) == Prepend(supportedQubits, Visit(TUPLE, TupleOf, bodyRest))
        decreases |bodyRest|
      {
        VisitStep(TUPLE, TupleOf, bodyRest, supportedQubits);
        var qubits := ExtractQubits(Group(jt.value, 0));
        if qubits.Err? {
          return Err(qubits.error);
        }
        supportedQubits := supportedQubits + [qubits.value];
        bodyRest := jt.value.rest;
        jt := Search(TUPLE, bodyRest);
      }
      VisitStep(TUPLE, TupleOf, bodyRest, supportedQubits);
      var properties := GateProperties(gateName);
      if properties.Err? {
        return Err(properties.error);
      }
      var gate := Gate(gateName, properties.value.0, properties.value.1, supportedQubits);
      supportedQubits := [];
      result := result + [gate];
      rest := it.value.rest;
      it := Search(GATE, rest);
    }
    VisitStep(GATE, GateOf, rest, result);
    return Ok(result);
  }
}
