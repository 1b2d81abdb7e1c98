/** Job results decoded from JSON: one ordered map from bit strings to counts per circuit. */
module JobResults {
  import opened Wrappers
  import opened Text
  import opened Json

  /** std::map<std::string, unsigned>: entries in strictly ascending order of their keys. */
  type CountMap = seq<(string, nat)>

  datatype JobResult = JobResult(results: seq<CountMap>, timestampCompleted: string,
                                 timestampSubmitted: string, timestampScheduled: string)

  datatype JsonError = MissingMember | TypeError

  // ------------------------------------------------------------ ordered maps

  predicate Less(a: string, b: string) {
    b != "" && (a == "" || a[0] < b[0] || (a[0] == b[0] && Less(a[1..], b[1..])))
  }

  /** b has a greater character where the two first differ, or goes on where a ends. */
  ghost predicate DiffersAt(a: string, b: string, n: nat) {
    n <= |a| && n < |b| && a[..n] == b[..n] && (n == |a| || a[n] < b[n])
  }

  lemma SameStart(a: string, b: string, n: nat)
    ensures DiffersAt(a, b, n) && n > 0 ==> a != "" && b != "" && a[0] == b[0]
  {
    if DiffersAt(a, b, n) && n > 0 {
      assert a[0] == a[..n][0] && b[0] == b[..n][0];
    }
  }

  /** The order is the lexicographic one. */
  lemma {:induction false} LessIff(a: string, b: string)
    ensures Less(a, b) <==> exists n: nat :: DiffersAt(a, b, n)
  {
    if a == "" || b == "" || a[0] != b[0] {
      if Less(a, b) {
        assert DiffersAt(a, b, 0);
      }
      forall n: nat ensures DiffersAt(a, b, n) ==> n == 0 {
        SameStart(a, b, n);
      }
    } else {
      LessIff(a[1..], b[1..]);
      forall n: nat ensures DiffersAt(a, b, n + 1) <==> DiffersAt(a[1..], b[1..], n) {
        DiffersLater(a, b, n);
      }
      if n: nat :| DiffersAt(a, b, n) {
        assert DiffersAt(a[1..], b[1..], n - 1);
      }
      if n: nat :| DiffersAt(a[1..], b[1..], n) {
        assert DiffersAt(a, b, n + 1);
      }
    }
  }

  lemma DiffersLater(a: string, b: string, n: nat)
    requires a != "" && b != "" && a[0] == b[0]
    ensures DiffersAt(a, b, n + 1) <==> DiffersAt(a[1..], b[1..], n)
  {
    if n < |a| && n < |b| {
      assert a[..n + 1] == [a[0]] + a[1..][..n] && b[..n + 1] == [b[0]] + b[1..][..n];
      assert a[..n + 1][1..] == a[1..][..n] && b[..n + 1][1..] == b[1..][..n];
    }
  }

  lemma {:induction false} LessTotal(a: string, b: string)
    ensures Less(a, b) || a == b || Less(b, a)
  {
    if a != "" && b != "" && a[0] == b[0] {
      LessTotal(a[1..], b[1..]);
      assert a == [a[0]] + a[1..] && b == [b[0]] + b[1..];
    }
  }

  lemma {:induction false} LessTransitive(a: string, b: string, c: string)
    requires Less(a, b) && Less(b, c)
    ensures Less(a, c)
  {
    if a != "" && a[0] == b[0] && b[0] == c[0] {
      LessTransitive(a[1..], b[1..], c[1..]);
    }
  }

  lemma {:induction false} LessIrreflexive(a: string)
    ensures !Less(a, a)
  {
    if a != "" {
      LessIrreflexive(a[1..]);
    }
  }

  predicate Sorted(m: CountMap) {
    forall i :: 0 < i < |m| ==> Less(m[i - 1].0, m[i].0)
  }

  /** m[key] = value */
  function Insert(m: CountMap, key: string, value: nat): CountMap {
    if m == [] || Less(key, m[0].0) then [(key, value)] + m
    else if m[0].0 == key then [(key, value)] + m[1..]
    else [m[0]] + Insert(m[1..], key, value)
  }

  lemma {:induction false} InsertSorted(m: CountMap, key: string, value: nat)
    requires Sorted(m)
    ensures Sorted(Insert(m, key, value))
    ensures Insert(m, key, value)[0].0 == key || (m != [] && Insert(m, key, value)[0] == m[0])
    ensures forall e :: e in Insert(m, key, value) <==> e == (key, value) || (e in m && e.0 != key)
  {
    if m == [] {
    } else if Less(key, m[0].0) {
      NoKeyBelow(m, key);
    } else if m[0].0 == key {
      NoKeyBelow(m[1..], key);
      assert m == [m[0]] + m[1..];
    } else {
      LessTotal(key, m[0].0);
      InsertSorted(m[1..], key, value);
      assert m == [m[0]] + m[1..];
    }
  }

  /** A key below the first key of a sorted map is not in it. */
  lemma {:induction false} NoKeyBelow(m: CountMap, key: string)
    requires Sorted(m) && (m != [] ==> Less(key, m[0].0))
    ensures forall e :: e in m ==> e.0 != key
  {
    LessIrreflexive(key);
    if m != [] {
      if |m| > 1 {
        LessTransitive(key, m[0].0, m[1].0);
      }
      NoKeyBelow(m[1..], key);
      assert m == [m[0]] + m[1..];
    }
  }

  /** Inserting a key above all others appends it. */
  lemma {:induction false} InsertLast(m: CountMap, key: string, value: nat)
    requires Sorted(m) && (m != [] ==> Less(m[|m| - 1].0, key))
    ensures Insert(m, key, value) == m + [(key, value)]
  {
    if m != [] {
      FirstBelow(m, key);
      LessIrreflexive(key);
      if Less(key, m[0].0) {
        LessTransitive(key, m[0].0, key);
      }
      InsertLast(m[1..], key, value);
      assert m == [m[0]] + m[1..];
    }
  }

  lemma {:induction false} FirstBelow(m: CountMap, key: string)
    requires Sorted(m) && m != [] && Less(m[|m| - 1].0, key)
    ensures Less(m[0].0, key)
  {
    if |m| > 1 {
      LessTransitive(m[|m| - 2].0, m[|m| - 1].0, key);
      FirstBelow(m[..|m| - 1], key);
    }
  }

  // ------------------------------------------------------------ decoding

  /** value.get<unsigned int>() */
  function CountOf(value: Json): Result<nat, JsonError> {
    match value
    case Num(n) => Ok(Uint32(n))
    case Bool(b) => Ok(if b then 1 else 0)
    case _ => Err(TypeError)
  }

  /** json.items(): array elements are keyed by their index, a lone value by the empty string. */
  function Items(doc: Json): seq<(string, Json)> {
    match doc
    case Obj(members) => members
    case Arr(items) => seq(|items|, i requires 0 <= i < |items| => (Decimal(i), items[i]))
    case Null => []
    case _ => [("", doc)]
  }

  /** The map after inserting the given items into m, one after the other. */
  function InsertAll(m: CountMap, items: seq<(string, Json)>): Result<CountMap, JsonError>
    decreases |items|
  {
    if items == [] then Ok(m)
    else match CountOf(items[0].1)
      case Err(e) => Err(e)
      case Ok(n) => InsertAll(Insert(m, items[0].0, n), items[1..])
  }

  function MapOf(doc: Json): Result<CountMap, JsonError> {
    InsertAll([], Items(doc))
  }

  function MapsOf(doc: Json): Result<seq<CountMap>, JsonError> {
    Traverse(MapOf, if doc.Arr? then doc.items else [doc])
  }

  /** parsed.at(key).get<std::string>() */
  function RequiredText(doc: Json, key: string): Result<string, JsonError> {
    match Find(doc, key)
    case None => Err(MissingMember)
    case Some(Str(s)) => Ok(s)
    case Some(_) => Err(TypeError)
  }

  /** What a reply means: `parse` stands for the JSON parser, None for text it rejects. A result
      text that is no JSON gives an empty result without timestamps. */
  function Decoded(parse: string -> Option<Json>, reply: Json): Result<JobResult, JsonError> {
    match RequiredText(reply, "result")
    case Err(e) => Err(e)
    case Ok(text) =>
      match parse(text)
      case None => Ok(JobResult([], "", "", ""))
      case Some(doc) =>
        match MapsOf(doc)
        case Err(e) => Err(e)
        case Ok(results) =>
          match RequiredText(reply, "timestamp_completed")
          case Err(e) => Err(e)
          case Ok(completed) =>
            match RequiredText(reply, "timestamp_submitted")
            case Err(e) => Err(e)
            case Ok(submitted) =>
              match RequiredText(reply, "timestamp_scheduled")
              case Err(e) => Err(e)
              case Ok(scheduled) => Ok(JobResult(results, completed, submitted, scheduled))
  }

  method DecodeMap(doc: Json) returns (r: Result<CountMap, JsonError>)
    ensures r == MapOf(doc)
  {
    var result: CountMap := [];
    var items := Items(doc);
    for k := 0 to |items|
      invariant MapOf(doc) == InsertAll(result, items[k..])
    {
      var value := CountOf(items[k].1);
      if value.Err? {
        return Err(value.error);
      }
      result := Insert(result, items[k].0, value.value);
    }
    return Ok(result);
  }

  lemma TraverseFrom<A, B, E>(f: A -> Result<B, E>, xs: seq<A>, k: nat)
    requires k < |xs|
    ensures Traverse(f, xs[k..]) ==
            match f(xs[k]) case Err(e) => Err(e) case Ok(y) => Prepend([y], Traverse(f, xs[k + 1..]))
  {
    assert xs[k..][0] == xs[k] && xs[k..][1..] == xs[k + 1..];
  }

  lemma PrependTwice<B, E>(ys: seq<B>, y: B, r: Result<seq<B>, E>)
    ensures Prepend(ys, Prepend([y], r)) == Prepend(ys + [y], r)
  {
    if r.Ok? {
      assert ys + ([y] + r.value) == ys + [y] + r.value;
    }
  }

  lemma TraverseSnoc<A, B, E>(f: A -> Result<B, E>, xs: seq<A>, k: nat, ys: seq<B>)
    requires k < |xs| && Traverse(f, xs) == Prepend(ys, Traverse(f, xs[k..]))
    ensures f(xs[k]).Err? ==> Traverse(f, xs) == Err(f(xs[k]).error)
    ensures f(xs[k]).Ok? ==> Traverse(f, xs) == Prepend(ys + [f(xs[k]).value], Traverse(f, xs[k + 1..]))
  {
    TraverseFrom(f, xs, k);
    if f(xs[k]).Ok? {
      PrependTwice(ys, f(xs[k]).value, Traverse(f, xs[k + 1..]));
    }
  }

  method DecodeMaps(doc: Json) returns (r: Result<seq<CountMap>, JsonError>)
    ensures r == MapsOf(doc)
  {
    var results: seq<CountMap> := [];
    if doc.Arr? {
      assert doc.items[0..] == doc.items;
      PrependNothing(MapsOf(doc));
      for k := 0 to |doc.items|
        invariant MapsOf(doc) == Prepend(results, Traverse(MapOf, doc.items[k..]))
      {
        TraverseSnoc(MapOf, doc.items, k, results);
        var result := DecodeMap(doc.items[k]);
        if result.Err? {
          return Err(result.error);
        }
        results := results + [result.value];
      }
      assert doc.items[|doc.items|..] == [] && results + [] == results;
    } else {
      TraverseOne(MapOf, doc);
      var result := DecodeMap(doc);
      if result.Err? {
        return Err(result.error);
      }
      results := [result.value];
    }
    return Ok(results);
  }

  lemma PrependNothing<B, E>(r: Result<seq<B>, E>)
    ensures Prepend([], r) == r
  {
    if r.Ok? {
      assert [] + r.value == r.value;
    }
  }

  method DecodeJobResult(parse: string -> Option<Json>, reply: Json) returns (r: Result<JobResult, JsonError>)
    ensures r == Decoded(parse, reply)
  {
    var text := RequiredText(reply, "result");
    if text.Err? {
      return Err(text.error);
    }
    var doc := parse(text.value);
    if doc.None? {
      return Ok(JobResult([], "", "", ""));
    }
    var results := DecodeMaps(doc.value);
    if results.Err? {
      return Err(results.error);
    }
    var completed := RequiredText(reply, "timestamp_completed");
    if completed.Err? {
      return Err(completed.error);
    }
    var submitted := RequiredText(reply, "timestamp_submitted");
    if submitted.Err? {
      return Err(submitted.error);
    }
    var scheduled := RequiredText(reply, "timestamp_scheduled");
    if scheduled.Err? {
      return Err(scheduled.error);
    }
    return Ok(JobResult(results.value, completed.value, submitted.value, scheduled.value));
  }

  // ------------------------------------------------------------ what decoding keeps

  lemma {:induction false} InsertAllSorted(m: CountMap, items: seq<(string, Json)>)
    requires Sorted(m) && InsertAll(m, items).Ok?
    ensures Sorted(InsertAll(m, items).value)
    decreases |items|
  {
    if items != [] {
      var n := CountOf(items[0].1).value;
      InsertSorted(m, items[0].0, n);
      InsertAllSorted(Insert(m, items[0].0, n), items[1..]);
    }
  }

  /** The last item of that key has the given count. */
  ghost predicate LastItem(items: seq<(string, Json)>, key: string, value: nat) {
    exists i :: LastItemAt(items, i, key, value)
  }

  ghost predicate LastItemAt(items: seq<(string, Json)>, i: nat, key: string, value: nat) {
    && i < |items| && items[i].0 == key && CountOf(items[i].1) == Ok(value)
    && forall j :: i < j < |items| ==> items[j].0 != key
  }

  predicate HasKey(items: seq<(string, Json)>, key: string) {
    exists i :: 0 <= i < |items| && items[i].0 == key
  }

  lemma LastItemCons(items: seq<(string, Json)>, key: string, value: nat)
    requires items != []
    ensures HasKey(items, key) <==> items[0].0 == key || HasKey(items[1..], key)
    ensures LastItem(items, key, value) <==>
              || LastItem(items[1..], key, value)
              || (items[0].0 == key && CountOf(items[0].1) == Ok(value) && !HasKey(items[1..], key))
  {
    var rest := items[1..];
    assert forall j :: 0 <= j < |rest| ==> rest[j] == items[j + 1];
    assert forall j :: 1 <= j < |items| ==> items[j] == rest[j - 1];
    if i: nat :| LastItemAt(rest, i, key, value) {
      assert LastItemAt(items, i + 1, key, value);
    }
    if i: nat :| LastItemAt(items, i, key, value) {
      if i > 0 {
        assert LastItemAt(rest, i - 1, key, value);
      }
    }
    if items[0].0 == key && CountOf(items[0].1) == Ok(value) && !HasKey(rest, key) {
      assert LastItemAt(items, 0, key, value);
    }
  }

  lemma {:induction false} InsertAllEntries(m: CountMap, items: seq<(string, Json)>, key: string, value: nat)
    requires Sorted(m) && InsertAll(m, items).Ok?
    ensures (key, value) in InsertAll(m, items).value <==>
              LastItem(items, key, value) || ((key, value) in m && !HasKey(items, key))
    decreases |items|
  {
    if items != [] {
      var n := CountOf(items[0].1).value;
      InsertSorted(m, items[0].0, n);
      InsertAllEntries(Insert(m, items[0].0, n), items[1..], key, value);
      LastItemCons(items, key, value);
    }
  }

  /** A decoded map has exactly the keys of the document, each with the count it has last. */
  lemma MapEntries(doc: Json, key: string, value: nat)
    requires MapOf(doc).Ok?
    ensures (key, value) in MapOf(doc).value <==> LastItem(Items(doc), key, value)
  {
    InsertAllEntries([], Items(doc), key, value);
  }

  /** Numbers are taken modulo 2^32 and truth values are 0 and 1; nothing else is a count. */
  lemma CountsAre(n: int, b: bool, text: string)
    ensures CountOf(Num(n)).Ok? && CountOf(Num(n)).value < 4294967296
    ensures (n - CountOf(Num(n)).value) % 4294967296 == 0
    ensures CountOf(Bool(true)) == Ok(1) && CountOf(Bool(false)) == Ok(0)
    ensures CountOf(Str(text)) == Err(TypeError) && CountOf(Null) == Err(TypeError)
  {
  }

  /** Elements of an array are keyed by their index, and a lone value by the empty text. */
  lemma ItemsAre(items: seq<Json>, members: seq<(string, Json)>, n: int)
    ensures |Items(Arr(items))| == |items|
    ensures forall i :: 0 <= i < |items| ==>
              var item := Items(Arr(items))[i];
              item.1 == items[i] && AllDigits(item.0) && Value(item.0) == i
    ensures Items(Obj(members)) == members && Items(Null) == [] && Items(Num(n)) == [("", Num(n))]
  {
  }

  /** What the constructor throws or returns before it reads any count: no result text, or one that
      is no JSON. */
  lemma DecodedEarly(parse: string -> Option<Json>, reply: Json, text: string)
    ensures Find(reply, "result").None? ==> Decoded(parse, reply) == Err(MissingMember)
    ensures HasMember(reply, "result", Null) ==> Decoded(parse, reply) == Err(TypeError)
    ensures HasMember(reply, "result", Str(text)) && parse(text).None? ==>
              Decoded(parse, reply) == Ok(JobResult([], "", "", ""))
  {
    FindIff(reply, "result", Null);
    FindIff(reply, "result", Str(text));
  }

  /** A required text: missing, of another type, or there. */
  lemma RequiredIs(doc: Json, key: string, value: Json)
    ensures Find(doc, key).None? ==> RequiredText(doc, key) == Err(MissingMember)
    ensures HasMember(doc, key, value) && !value.Str? ==> RequiredText(doc, key) == Err(TypeError)
    ensures HasMember(doc, key, value) && value.Str? ==> RequiredText(doc, key) == Ok(value.s)
  {
    FindIff(doc, key, value);
  }

  lemma {:induction false} InsertAllError(m: CountMap, items: seq<(string, Json)>)
    requires InsertAll(m, items).Err?
    ensures InsertAll(m, items).error == TypeError
    decreases |items|
  {
    if CountOf(items[0].1).Ok? {
      InsertAllError(Insert(m, items[0].0, CountOf(items[0].1).value), items[1..]);
    }
  }

  lemma {:induction false} TraverseMapsError(docs: seq<Json>)
    requires Traverse(MapOf, docs).Err?
    ensures Traverse(MapOf, docs).error == TypeError
  {
    if MapOf(docs[0]).Err? {
      InsertAllError([], Items(docs[0]));
    } else {
      TraverseMapsError(docs[1..]);
    }
  }

  /** The order of the throws, once the result text has been parsed: a value that is no count, then
      the time stamps of completion, submission and scheduling. */
  lemma DecodedThrows(parse: string -> Option<Json>, reply: Json, text: string, doc: Json)
    requires HasMember(reply, "result", Str(text)) && parse(text) == Some(doc)
    ensures var r := Decoded(parse, reply);
            var completed := RequiredText(reply, "timestamp_completed");
            var submitted := RequiredText(reply, "timestamp_submitted");
            var scheduled := RequiredText(reply, "timestamp_scheduled");
            if MapsOf(doc).Err? then r == Err(TypeError)
            else if completed.Err? then r == Err(completed.error)
            else if submitted.Err? then r == Err(submitted.error)
            else if scheduled.Err? then r == Err(scheduled.error)
            else r.Ok?
  {
    FindIff(reply, "result", Str(text));
    if MapsOf(doc).Err? {
      TraverseMapsError(if doc.Arr? then doc.items else [doc]);
    }
  }

  /** Every decoded map is in ascending key order, whatever the document looked like. */
  lemma DecodedMapsSorted(parse: string -> Option<Json>, reply: Json)
    requires Decoded(parse, reply).Ok?
    ensures var results := Decoded(parse, reply).value.results;
            forall k :: 0 <= k < |results| ==> Sorted(results[k])
  {
    var text := RequiredText(reply, "result").value;
    if parse(text).Some? {
      var doc := parse(text).value;
      var docs := if doc.Arr? then doc.items else [doc];
      TraverseOk(MapOf, docs);
      forall k | 0 <= k < |docs| ensures Sorted(MapsOf(doc).value[k]) {
        InsertAllSorted([], Items(docs[k]));
      }
    }
  }

  /** The JSON object with the entries of m. */
  function Encoded(m: CountMap): Json {
    Obj(seq(|m|, i requires 0 <= i < |m| => (m[i].0, Num(m[i].1))))
  }

  /** The JSON array of the maps, one object for each. */
  function EncodedAll(ms: seq<CountMap>): Json {
    Arr(seq(|ms|, k requires 0 <= k < |ms| => Encoded(ms[k])))
  }

  predicate CountsFit(m: CountMap) {
    forall i :: 0 <= i < |m| ==> m[i].1 < 0x1_0000_0000
  }

  lemma {:induction false} InsertAllInOrder(m: CountMap, done: nat)
    requires Sorted(m) && CountsFit(m) && done <= |m|
    ensures InsertAll(m[..done], Encoded(m).members[done..]) == Ok(m)
    decreases |m| - done
  {
    var items := Encoded(m).members;
    if done == |m| {
      assert m[..done] == m;
    } else {
      assert items[done..][0] == (m[done].0, Num(m[done].1));
      assert items[done..][1..] == items[done + 1..];
      InsertLast(m[..done], m[done].0, m[done].1);
      assert m[..done] + [(m[done].0, m[done].1)] == m[..done + 1];
      InsertAllInOrder(m, done + 1);
    }
  }

  /** Decoding the encoding of an ordered map gives it back, alone or inside an array. */
  lemma MapRoundTrip(m: CountMap)
    requires Sorted(m) && CountsFit(m)
    ensures MapOf(Encoded(m)) == Ok(m)
    ensures MapsOf(Encoded(m)) == Ok([m])
  {
    InsertAllInOrder(m, 0);
    assert Encoded(m).members[0..] == Encoded(m).members;
    assert m[..0] == [];
    TraverseOne(MapOf, Encoded(m));
  }

  lemma {:induction false} ResultsRoundTrip(ms: seq<CountMap>)
    requires forall k :: 0 <= k < |ms| ==> Sorted(ms[k]) && CountsFit(ms[k])
    ensures MapsOf(EncodedAll(ms)) == Ok(ms)
  {
    var docs := EncodedAll(ms).items;
    if ms == [] {
      assert docs == [];
    } else {
      MapRoundTrip(ms[0]);
      ResultsRoundTrip(ms[1..]);
      assert docs[1..] == EncodedAll(ms[1..]).items;
      assert docs == [docs[0]] + docs[1..];
      assert ms == [ms[0]] + ms[1..];
      TraverseCons(MapOf, docs[0], docs[1..], ms[0], ms[1..]);
    }
  }

  /** The reply of a server for the given result, with the maps as JSON in `text`. */
  function ReplyFor(text: string, r: JobResult): Json {
    Obj([("result", Str(text)), ("timestamp_completed", Str(r.timestampCompleted)),
         ("timestamp_scheduled", Str(r.timestampScheduled)), ("timestamp_submitted", Str(r.timestampSubmitted))])
  }

  lemma ReplyFields(text: string, r: JobResult)
    ensures RequiredText(ReplyFor(text, r), "result") == Ok(text)
    ensures RequiredText(ReplyFor(text, r), "timestamp_completed") == Ok(r.timestampCompleted)
    ensures RequiredText(ReplyFor(text, r), "timestamp_scheduled") == Ok(r.timestampScheduled)
    ensures RequiredText(ReplyFor(text, r), "timestamp_submitted") == Ok(r.timestampSubmitted)
  {
    var c, d, u := "timestamp_completed", "timestamp_scheduled", "timestamp_submitted";
    assert c[10] == 'c' && d[10] == 's' && u[10] == 's' && d[11] == 'c' && u[11] == 'u';
    var m := ReplyFor(text, r).members;
    var m1 := m[1..];
    var m2 := m1[1..];
    var m3 := m2[1..];
    assert m[0].0 == "result" && m1[0] == (c, Str(r.timestampCompleted));
    assert m2[0] == (d, Str(r.timestampScheduled)) && m3[0] == (u, Str(r.timestampSubmitted));
    assert FindMember(m, c) == FindMember(m1, c);
    assert FindMember(m, d) == FindMember(m1, d) == FindMember(m2, d);
    assert FindMember(m, u) == FindMember(m1, u) == FindMember(m2, u) == FindMember(m3, u);
  }

  /** A whole reply round trip: results in order, and each time stamp in its own place. */
  lemma ReplyRoundTrip(parse: string -> Option<Json>, text: string, r: JobResult)
    requires forall k :: 0 <= k < |r.results| ==> Sorted(r.results[k]) && CountsFit(r.results[k])
    requires parse(text) == Some(EncodedAll(r.results))
    ensures Decoded(parse, ReplyFor(text, r)) == Ok(r)
  {
    ReplyFields(text, r);
    ResultsRoundTrip(r.results);
  }

  predicate IsCount(value: Json) {
    value.Num? || value.Bool?
  }

  lemma {:induction false} InsertAllOkIff(m: CountMap, items: seq<(string, Json)>)
    ensures InsertAll(m, items).Ok? <==> forall i :: 0 <= i < |items| ==> IsCount(items[i].1)
    decreases |items|
  {
    if items != [] && IsCount(items[0].1) {
      InsertAllOkIff(Insert(m, items[0].0, CountOf(items[0].1).value), items[1..]);
      assert forall i :: 0 <= i < |items| - 1 ==> items[1..][i] == items[i + 1];
      assert forall i :: 1 <= i < |items| ==> items[i] == items[1..][i - 1];
    }
  }

  /** Decoding a reply whose result text is JSON succeeds exactly when every value in every map
      is a count and the three time stamps are there. */
  lemma DecodedOkIff(parse: string -> Option<Json>, reply: Json)
    requires TextAt(reply, "result").Some? && parse(TextAt(reply, "result").value).Some?
    ensures var doc := parse(TextAt(reply, "result").value).value;
            var docs := if doc.Arr? then doc.items else [doc];
            Decoded(parse, reply).Ok? <==>
              && (forall k, i :: 0 <= k < |docs| && 0 <= i < |Items(docs[k])| ==> IsCount(Items(docs[k])[i].1))
              && TextAt(reply, "timestamp_completed").Some?
              && TextAt(reply, "timestamp_submitted").Some?
              && TextAt(reply, "timestamp_scheduled").Some?
  {
    var doc := parse(TextAt(reply, "result").value).value;
    var docs := if doc.Arr? then doc.items else [doc];
    TraverseOk(MapOf, docs);
    forall k | 0 <= k < |docs|
      ensures MapOf(docs[k]).Ok? <==> forall i :: 0 <= i < |Items(docs[k])| ==> IsCount(Items(docs[k])[i].1)
    {
      InsertAllOkIff([], Items(docs[k]));
    }
  }
}
