/**
  The fragment of ECMAScript regular expressions used by the resource parsers: a sequence of
  character classes, each matched once (x), at least once (x+) or any number of times (x*).

  `Fits` says declaratively what a match is. `Engine` is the search that the standard
  prescribes: items from left to right, repetitions as long as possible first, backtracking
  to shorter ones on failure. `FindAll` is the sequence a `sregex_iterator` visits.
 */
module Regex {
  import opened Wrappers
  import opened Text

  datatype Class = Just(c: char) | Digit | Space | Quote | NotQuote | NotBrace | NotParen

  predicate Has(cls: Class, c: char) {
    match cls
    case Just(d) => c == d
    case Digit => IsDigit(c)
    case Space => IsSpace(c)
    case Quote => c == '\'' || c == '"'
    case NotQuote => c != '\'' && c != '"'
    case NotBrace => c != '{' && c != '}'
    case NotParen => c != ')'
  }

  datatype Item = One(cls: Class) | Plus(cls: Class) | Star(cls: Class)

  type Pattern = seq<Item>

  // ------------------------------------------------------------ what a match is

  predicate PieceFits(item: Item, piece: string) {
    && (forall i :: 0 <= i < |piece| ==> Has(item.cls, piece[i]))
    && (item.One? ==> |piece| == 1)
    && (item.Plus? ==> |piece| >= 1)
  }

  /** pieces[k] is what the k-th item of the pattern matches. */
  predicate Fits(pat: Pattern, pieces: seq<string>) {
    |pieces| == |pat| && forall k :: 0 <= k < |pat| ==> PieceFits(pat[k], pieces[k])
  }

  function Join(pieces: seq<string>): string {
    if pieces == [] then "" else pieces[0] + Join(pieces[1..])
  }

  /** pieces is a match of the pattern at the front of s. */
  predicate MatchesAt(pat: Pattern, pieces: seq<string>, s: string) {
    Fits(pat, pieces) && Join(pieces) <= s
  }

  lemma FitsTail(pat: Pattern, pieces: seq<string>)
    requires pat != [] && Fits(pat, pieces)
    ensures PieceFits(pat[0], pieces[0]) && Fits(pat[1..], pieces[1..])
    ensures Join(pieces) == pieces[0] + Join(pieces[1..])
  {
  }

  lemma FitsCons(pat: Pattern, piece: string, rest: seq<string>)
    requires pat != [] && PieceFits(pat[0], piece) && Fits(pat[1..], rest)
    ensures Fits(pat, [piece] + rest) && Join([piece] + rest) == piece + Join(rest)
  {
    var pieces := [piece] + rest;
    assert pieces[1..] == rest;
    forall k | 0 <= k < |pat| ensures PieceFits(pat[k], pieces[k]) {
      if k > 0 {
        assert pat[k] == pat[1..][k - 1] && pieces[k] == rest[k - 1];
      }
    }
  }

  lemma MatchCons(pat: Pattern, s: string, n: nat, rest: seq<string>)
    requires pat != [] && n <= |s| && PieceFits(pat[0], s[..n]) && MatchesAt(pat[1..], rest, s[n..])
    ensures MatchesAt(pat, [s[..n]] + rest, s)
  {
    FitsCons(pat, s[..n], rest);
    assert s == s[..n] + s[n..];
  }

  // ------------------------------------------------------------ the matching engine

  function Longest(item: Item, s: string): (n: nat)
    ensures n <= |s|
  {
    var run := Span(c => Has(item.cls, c), s);
    if item.One? && run > 1 then 1 else run
  }

  function Shortest(item: Item): nat {
    if item.Star? then 0 else 1
  }

  /** The match found at the front of s, if there is one. */
  function Engine(pat: Pattern, s: string): Option<seq<string>>
    decreases |pat|, |s| + 1
  {
    if pat == [] then Some([]) else Backtrack(pat, s, Longest(pat[0], s))
  }

  /** As Engine, with at most n characters for the first item. */
  function Backtrack(pat: Pattern, s: string, n: nat): Option<seq<string>>
    requires pat != [] && n <= |s|
    decreases |pat|, n
  {
    if n < Shortest(pat[0]) then None
    else match Engine(pat[1..], s[n..])
      case Some(rest) => Some([s[..n]] + rest)
      case None => if n == 0 then None else Backtrack(pat, s, n - 1)
  }

  /** The lengths of p come before those of q in the order in which greedy repetitions are
      tried: at the first item where they differ, p takes more. */
  ghost predicate Greedier(p: seq<string>, q: seq<string>) {
    p == [] || q == [] || |p[0]| > |q[0]| || (|p[0]| == |q[0]| && Greedier(p[1..], q[1..]))
  }

  lemma {:induction false} EngineSound(pat: Pattern, s: string)
    ensures Engine(pat, s).Some? ==> MatchesAt(pat, Engine(pat, s).value, s)
    decreases |pat|, |s| + 1
  {
    if pat != [] {
      BacktrackSound(pat, s, Longest(pat[0], s));
    }
  }

  lemma {:induction false} BacktrackSound(pat: Pattern, s: string, n: nat)
    requires pat != [] && n <= Longest(pat[0], s)
    ensures Backtrack(pat, s, n).Some? ==> MatchesAt(pat, Backtrack(pat, s, n).value, s)
    decreases |pat|, n
  {
    if n >= Shortest(pat[0]) {
      EngineSound(pat[1..], s[n..]);
      match Engine(pat[1..], s[n..])
      case Some(rest) =>
        MatchCons(pat, s, n, rest);
      case None =>
        if n > 0 {
          BacktrackSound(pat, s, n - 1);
        }
    }
  }

  /** The engine misses no match, and returns the one that greedy repetition prefers. */
  lemma {:induction false} EngineComplete(pat: Pattern, s: string, pieces: seq<string>)
    requires MatchesAt(pat, pieces, s)
    ensures Engine(pat, s).Some? && Greedier(Engine(pat, s).value, pieces)
    decreases |pat|, |s| + 1
  {
    if pat != [] {
      FitsTail(pat, pieces);
      assert forall i :: 0 <= i < |pieces[0]| ==> pieces[0][i] == s[i];
      BacktrackComplete(pat, s, Longest(pat[0], s), pieces);
    }
  }

  lemma {:induction false} BacktrackComplete(pat: Pattern, s: string, n: nat, pieces: seq<string>)
    requires pat != [] && MatchesAt(pat, pieces, s) && |pieces[0]| <= n <= |s|
    ensures Backtrack(pat, s, n).Some? && Greedier(Backtrack(pat, s, n).value, pieces)
    decreases |pat|, n
  {
    FitsTail(pat, pieces);
    if |pieces[0]| == n {
      assert Join(pieces[1..]) <= s[n..] by {
        assert s[..n] == pieces[0];
      }
      EngineComplete(pat[1..], s[n..], pieces[1..]);
      var rest := Engine(pat[1..], s[n..]).value;
      assert ([s[..n]] + rest)[1..] == rest;
    } else if Engine(pat[1..], s[n..]).None? {
      BacktrackComplete(pat, s, n - 1, pieces);
    }
  }

  // ------------------------------------------------------------ deterministic patterns

  ghost predicate Disjoint(a: Class, b: Class) {
    forall c: char :: !(Has(a, c) && Has(b, c))
  }

  /** Whatever the rest matches is non-empty and begins outside cls. */
  ghost predicate Apart(cls: Class, rest: Pattern) {
    rest != [] && Disjoint(cls, rest[0].cls) && (rest[0].Star? ==> Apart(cls, rest[1..]))
  }

  /** Every repeated class is disjoint from what must follow it. */
  ghost predicate Deterministic(pat: Pattern) {
    forall k :: 0 <= k < |pat| ==> pat[k].One? || Apart(pat[k].cls, pat[k + 1..])
  }

  lemma DeterministicTail(pat: Pattern)
    requires Deterministic(pat) && pat != []
    ensures Deterministic(pat[1..])
  {
    forall k | 0 <= k < |pat| - 1 ensures pat[1..][k].One? || Apart(pat[1..][k].cls, pat[1..][k + 1..]) {
      assert pat[k + 1].One? || Apart(pat[k + 1].cls, pat[k + 2..]);
      assert pat[1..][k + 1..] == pat[k + 2..];
    }
  }

  lemma {:induction false} ApartStarts(cls: Class, rest: Pattern, pieces: seq<string>)
    requires Apart(cls, rest) && Fits(rest, pieces)
    ensures Join(pieces) != "" && !Has(cls, Join(pieces)[0])
  {
    FitsTail(rest, pieces);
    if pieces[0] == "" {
      ApartStarts(cls, rest[1..], pieces[1..]);
    } else {
      assert Join(pieces)[0] == pieces[0][0];
    }
  }

  lemma FirstPiece(pat: Pattern, s: string, p: seq<string>)
    requires pat != [] && MatchesAt(pat, p, s)
    ensures |p[0]| <= |s| && forall n :: 0 <= n < |p[0]| ==> Has(pat[0].cls, s[n])
  {
    FitsTail(pat, p);
    forall n | 0 <= n < |p[0]| ensures Has(pat[0].cls, s[n]) {
      assert s[n] == Join(p)[n] == p[0][n];
    }
  }

  lemma NoLonger(pat: Pattern, s: string, p: seq<string>, q: seq<string>)
    requires pat != [] && (pat[0].One? || Apart(pat[0].cls, pat[1..]))
    requires MatchesAt(pat, p, s) && MatchesAt(pat, q, s)
    ensures |p[0]| >= |q[0]|
  {
    FitsTail(pat, p);
    FirstPiece(pat, s, q);
    var n := |p[0]|;
    if !pat[0].One? {
      ApartStarts(pat[0].cls, pat[1..], p[1..]);
      assert Join(p)[n] == Join(p[1..])[0];
      assert s[n] == Join(p)[n];
    }
  }

  lemma TailMatches(pat: Pattern, s: string, p: seq<string>)
    requires pat != [] && MatchesAt(pat, p, s)
    ensures |p[0]| <= |s| && p[0] == s[..|p[0]|] && MatchesAt(pat[1..], p[1..], s[|p[0]|..])
  {
    FitsTail(pat, p);
    assert p[0] == s[..|p[0]|];
    assert Join(p[1..]) <= s[|p[0]|..];
  }

  /** From one start, a deterministic pattern matches in at most one way. */
  lemma {:induction false} MatchIsUnique(pat: Pattern, s: string, p: seq<string>, q: seq<string>)
    requires Deterministic(pat) && MatchesAt(pat, p, s) && MatchesAt(pat, q, s)
    ensures p == q
    decreases |pat|
  {
    if pat != [] {
      NoLonger(pat, s, p, q);
      NoLonger(pat, s, q, p);
      TailMatches(pat, s, p);
      TailMatches(pat, s, q);
      DeterministicTail(pat);
      MatchIsUnique(pat[1..], s[|p[0]|..], p[1..], q[1..]);
      assert p == [p[0]] + p[1..] && q == [q[0]] + q[1..];
    }
  }

  /** The one-pass scanner: every repetition takes all it can and is never reconsidered. */
  function Scan(pat: Pattern, s: string): Option<seq<string>>
    decreases |pat|
  {
    if pat == [] then Some([])
    else
      var n := Longest(pat[0], s);
      if n < Shortest(pat[0]) then None
      else match Scan(pat[1..], s[n..])
        case Some(rest) => Some([s[..n]] + rest)
        case None => None
  }

  lemma {:induction false} ScanSound(pat: Pattern, s: string)
    ensures Scan(pat, s).Some? ==> MatchesAt(pat, Scan(pat, s).value, s)
    decreases |pat|
  {
    if pat != [] && Longest(pat[0], s) >= Shortest(pat[0]) {
      var n := Longest(pat[0], s);
      ScanSound(pat[1..], s[n..]);
      if Scan(pat[1..], s[n..]).Some? {
        MatchCons(pat, s, n, Scan(pat[1..], s[n..]).value);
      }
    }
  }

  lemma {:induction false} ScanComplete(pat: Pattern, s: string, pieces: seq<string>)
    requires Deterministic(pat) && MatchesAt(pat, pieces, s)
    ensures Scan(pat, s).Some?
    decreases |pat|
  {
    if pat != [] {
      FitsTail(pat, pieces);
      var n := |pieces[0]|;
      assert s[..n] == pieces[0] && Join(pieces[1..]) <= s[n..];
      assert n == Longest(pat[0], s) by {
        assert forall i :: 0 <= i < n ==> s[i] == pieces[0][i];
        if !pat[0].One? {
          ApartStarts(pat[0].cls, pat[1..], pieces[1..]);
          assert s[n] == Join(pieces[1..])[0];
        }
      }
      DeterministicTail(pat);
      ScanComplete(pat[1..], s[n..], pieces[1..]);
    }
  }

  /** On a deterministic pattern the scanner and the backtracking engine agree on every text. */
  lemma ScanIsEngine(pat: Pattern, s: string)
    requires Deterministic(pat)
    ensures Scan(pat, s) == Engine(pat, s)
  {
    EngineSound(pat, s);
    ScanSound(pat, s);
    if Engine(pat, s).Some? {
      ScanComplete(pat, s, Engine(pat, s).value);
    }
    if Scan(pat, s).Some? {
      EngineComplete(pat, s, Scan(pat, s).value);
      MatchIsUnique(pat, s, Scan(pat, s).value, Engine(pat, s).value);
    }
  }

  // ------------------------------------------------------------ searching a text

  /** A match and the text after it. */
  datatype Found = Found(pieces: seq<string>, rest: string)

  /** Every match is non-empty. */
  predicate Productive(pat: Pattern) {
    exists k :: 0 <= k < |pat| && !pat[k].Star?
  }

  lemma {:induction false} JoinAtLeast(pieces: seq<string>, k: nat)
    requires k < |pieces|
    ensures |Join(pieces)| >= |pieces[k]|
  {
    if k > 0 {
      JoinAtLeast(pieces[1..], k - 1);
    }
  }

  lemma ProductiveMatch(pat: Pattern, pieces: seq<string>)
    requires Productive(pat) && Fits(pat, pieces)
    ensures Join(pieces) != ""
  {
    var k :| 0 <= k < |pat| && !pat[k].Star?;
    assert PieceFits(pat[k], pieces[k]);
    JoinAtLeast(pieces, k);
  }

  /** The leftmost match in s. */
  function Search(pat: Pattern, s: string): (r: Option<Found>)
    requires Productive(pat)
    ensures r.Some? ==> |r.value.rest| < |s|
  {
    EngineSound(pat, s);
    match Engine(pat, s)
    case Some(pieces) =>
      ProductiveMatch(pat, pieces);
      Some(Found(pieces, s[|Join(pieces)|..]))
    case None => if s == "" then None else Search(pat, s[1..])
  }

  /** All matches in s, each searched for after the end of the one before. */
  function FindAll(pat: Pattern, s: string): seq<Found>
    requires Productive(pat)
    decreases |s|
  {
    match Search(pat, s)
    case None => []
    case Some(f) => [f] + FindAll(pat, f.rest)
  }

  lemma FindAllStep(pat: Pattern, s: string)
    requires Productive(pat) && s != "" && Engine(pat, s).None?
    ensures FindAll(pat, s) == FindAll(pat, s[1..])
  {
  }

  /** What f makes of every match in s, in order; a failure ends the iteration. */
  function Visit<B, E>(pat: Pattern, f: Found -> Result<B, E>, s: string): Result<seq<B>, E>
    requires Productive(pat)
  {
    Traverse(f, FindAll(pat, s))
  }

  lemma VisitStart<B, E>(pat: Pattern, f: Found -> Result<B, E>, s: string)
    requires Productive(pat)
    ensures Visit(pat, f, s) == Prepend([], Visit(pat, f, s))
  {
    if Visit(pat, f, s).Ok? {
      assert [] + Visit(pat, f, s).value == Visit(pat, f, s).value;
    }
  }

  /** One round of an iterator loop, with `done` collected so far. */
  lemma VisitStep<B, E>(pat: Pattern, f: Found -> Result<B, E>, s: string, done: seq<B>)
    requires Productive(pat)
    ensures Search(pat, s).None? ==> Prepend(done, Visit(pat, f, s)) == Ok(done)
    ensures Search(pat, s).Some? ==>
              match f(Search(pat, s).value)
              case Err(e) => Prepend(done, Visit(pat, f, s)) == Err(e)
              case Ok(y) =>
                Prepend(done, Visit(pat, f, s)) == Prepend(done + [y], Visit(pat, f, Search(pat, s).value.rest))
  {
    match Search(pat, s)
    case None =>
      assert done + [] == done;
    case Some(found) =>
      var fs := FindAll(pat, s);
      assert fs[0] == found && fs[1..] == FindAll(pat, found.rest);
      if f(found).Ok? && Visit(pat, f, found.rest).Ok? {
        var y, ys := f(found).value, Visit(pat, f, found.rest).value;
        assert done + ([y] + ys) == done + [y] + ys;
      }
  }

  /** A match at the front of the text is the first one found. */
  lemma FindAllMatch(pat: Pattern, pieces: seq<string>, rest: string)
    requires Productive(pat) && Deterministic(pat) && Fits(pat, pieces)
    ensures FindAll(pat, Join(pieces) + rest) == [Found(pieces, rest)] + FindAll(pat, rest)
  {
    var s := Join(pieces) + rest;
    EngineComplete(pat, s, pieces);
    EngineSound(pat, s);
    MatchIsUnique(pat, s, pieces, Engine(pat, s).value);
    assert s[|Join(pieces)|..] == rest;
  }

  lemma NoMatchAt(pat: Pattern, s: string)
    requires pat != [] && !pat[0].Star? && (s == "" || !Has(pat[0].cls, s[0]))
    ensures Engine(pat, s).None?
  {
    EngineSound(pat, s);
    if Engine(pat, s).Some? {
      FitsTail(pat, Engine(pat, s).value);
    }
  }

  /** Text in which no match can start is skipped. */
  lemma {:induction false} FindAllSkip(pat: Pattern, junk: string, s: string)
    requires Productive(pat) && pat != [] && !pat[0].Star?
    requires forall i :: 0 <= i < |junk| ==> !Has(pat[0].cls, junk[i])
    ensures FindAll(pat, junk + s) == FindAll(pat, s)
  {
    if junk == "" {
      assert junk + s == s;
    } else {
      NoMatchAt(pat, junk + s);
      FindAllStep(pat, junk + s);
      assert (junk + s)[1..] == junk[1..] + s;
      FindAllSkip(pat, junk[1..], s);
    }
  }

  lemma FindAllNone(pat: Pattern, junk: string)
    requires Productive(pat) && pat != [] && !pat[0].Star?
    requires forall i :: 0 <= i < |junk| ==> !Has(pat[0].cls, junk[i])
    ensures FindAll(pat, junk) == []
  {
    FindAllSkip(pat, junk, "");
    assert junk + "" == junk;
    NoMatchAt(pat, "");
  }

  // ------------------------------------------------------------ all occurrences

  /** The pattern matches somewhere at offset i of the text. */
  ghost predicate Occurs(pat: Pattern, text: string, i: nat) {
    i <= |text| && exists pieces :: MatchesAt(pat, pieces, text[i..])
  }

  /** Where f begins in the text it was found in. */
  function Start(text: string, f: Found): int {
    |text| - |f.rest| - |Join(f.pieces)|
  }

  /** A match can start with a character that cannot occur further on in a match. */
  ghost predicate Fenced(pat: Pattern) {
    pat != [] && pat[0].One? && forall k :: 1 <= k < |pat| ==> Disjoint(pat[0].cls, pat[k].cls)
  }

  lemma OccursIffEngine(pat: Pattern, text: string, i: nat)
    requires i <= |text|
    ensures Occurs(pat, text, i) <==> Engine(pat, text[i..]).Some?
  {
    EngineSound(pat, text[i..]);
    if Occurs(pat, text, i) {
      var pieces :| MatchesAt(pat, pieces, text[i..]);
      EngineComplete(pat, text[i..], pieces);
    }
  }

  /** f is a match in the text, with the text after it. */
  ghost predicate IsMatchIn(pat: Pattern, text: string, f: Found) {
    var at := Start(text, f);
    && 0 <= at < at + |Join(f.pieces)| <= |text|
    && f.rest == text[at + |Join(f.pieces)|..]
    && MatchesAt(pat, f.pieces, text[at..]) && Engine(pat, text[at..]) == Some(f.pieces)
  }

  lemma MatchHere(pat: Pattern, text: string, i: nat, f: Found)
    requires Productive(pat) && i <= |text| && Engine(pat, text[i..]) == Some(f.pieces)
    requires |Join(f.pieces)| <= |text[i..]| && f.rest == text[i..][|Join(f.pieces)|..]
    ensures Start(text, f) == i && IsMatchIn(pat, text, f)
  {
    EngineSound(pat, text[i..]);
    ProductiveMatch(pat, f.pieces);
    assert text[i..][|Join(f.pieces)|..] == text[i + |Join(f.pieces)|..];
  }

  /** r is the first match in the text at or after offset i, or there is none. */
  ghost predicate Leftmost(pat: Pattern, text: string, i: nat, r: Option<Found>) {
    match r
    case None => forall j :: i <= j <= |text| ==> !Occurs(pat, text, j)
    case Some(f) =>
      && i <= Start(text, f) && IsMatchIn(pat, text, f)
      && forall j :: i <= j < Start(text, f) ==> !Occurs(pat, text, j)
  }

  lemma LeftmostHere(pat: Pattern, text: string, i: nat, pieces: seq<string>)
    requires Productive(pat) && i <= |text| && Engine(pat, text[i..]) == Some(pieces)
    ensures Search(pat, text[i..]).Some? && Leftmost(pat, text, i, Search(pat, text[i..]))
  {
    EngineSound(pat, text[i..]);
    MatchHere(pat, text, i, Found(pieces, text[i..][|Join(pieces)|..]));
  }

  lemma LeftmostLater(pat: Pattern, text: string, i: nat, r: Option<Found>)
    requires i <= |text| && !Occurs(pat, text, i) && (i == |text| ==> r.None?)
    requires i < |text| ==> Leftmost(pat, text, i + 1, r)
    ensures Leftmost(pat, text, i, r)
  {
  }

  /** Search from offset i finds the first occurrence at or after i, and nothing else. */
  lemma {:induction false} SearchIsLeftmost(pat: Pattern, text: string, i: nat)
    requires Productive(pat) && i <= |text|
    ensures Leftmost(pat, text, i, Search(pat, text[i..]))
    decreases |text| - i
  {
    match Engine(pat, text[i..])
    case Some(pieces) =>
      LeftmostHere(pat, text, i, pieces);
    case None =>
      OccursIffEngine(pat, text, i);
      if i < |text| {
        assert text[i..][1..] == text[i + 1..];
        SearchIsLeftmost(pat, text, i + 1);
      }
      LeftmostLater(pat, text, i, Search(pat, text[i..]));
  }

  lemma {:induction false} LaterCharacters(pieces: seq<string>, pat: Pattern, cls: Class, n: nat)
    requires Fits(pat, pieces) && n < |Join(pieces)|
    requires forall k :: 0 <= k < |pat| ==> Disjoint(cls, pat[k].cls)
    ensures !Has(cls, Join(pieces)[n])
    decreases |pat|
  {
    FitsTail(pat, pieces);
    if n < |pieces[0]| {
      assert Has(pat[0].cls, pieces[0][n]);
    } else {
      LaterCharacters(pieces[1..], pat[1..], cls, n - |pieces[0]|);
    }
  }

  /** Two matches of a fenced pattern never overlap. */
  lemma NoOverlap(pat: Pattern, text: string, i: nat, pieces: seq<string>, j: nat)
    requires Fenced(pat) && i <= |text| && MatchesAt(pat, pieces, text[i..])
    requires i < j < i + |Join(pieces)|
    ensures !Occurs(pat, text, j)
  {
    FitsTail(pat, pieces);
    LaterCharacters(pieces[1..], pat[1..], pat[0].cls, j - i - 1);
    assert text[j] == text[i..][j - i] == Join(pieces)[j - i] == Join(pieces[1..])[j - i - 1];
    NoMatchAt(pat, text[j..]);
    OccursIffEngine(pat, text, j);
  }

  /** The entries of fs are matches from offset i on, in order of position. */
  ghost predicate InOrder(pat: Pattern, text: string, fs: seq<Found>, i: int) {
    && (forall k :: 0 <= k < |fs| ==>
          i <= Start(text, fs[k]) && 0 <= Start(text, fs[k]) <= |text| &&
          MatchesAt(pat, fs[k].pieces, text[Start(text, fs[k])..]))
    && (forall k, l :: 0 <= k < l < |fs| ==> Start(text, fs[k]) < Start(text, fs[l]))
  }

  lemma InOrderCons(pat: Pattern, text: string, f: Found, rest: seq<Found>, i: int)
    requires IsMatchIn(pat, text, f) && i <= Start(text, f)
    requires InOrder(pat, text, rest, Start(text, f) + |Join(f.pieces)|)
    ensures InOrder(pat, text, [f] + rest, i)
  {
    var fs := [f] + rest;
    assert forall k :: 1 <= k < |fs| ==> fs[k] == rest[k - 1];
  }

  /** The first match from offset i on, and where it ends. */
  lemma FirstFound(pat: Pattern, text: string, i: nat) returns (f: Found, end: nat)
    requires Productive(pat) && i <= |text| && Search(pat, text[i..]).Some?
    ensures Search(pat, text[i..]) == Some(f) && IsMatchIn(pat, text, f) && i <= Start(text, f)
    ensures end == Start(text, f) + |Join(f.pieces)| && i < end <= |text| && f.rest == text[end..]
  {
    SearchIsLeftmost(pat, text, i);
    f := Search(pat, text[i..]).value;
    end := Start(text, f) + |Join(f.pieces)|;
  }

  lemma FindAllFirst(pat: Pattern, s: string, f: Found)
    requires Productive(pat) && Search(pat, s) == Some(f)
    ensures FindAll(pat, s) == [f] + FindAll(pat, f.rest)
  {
  }

  /** What the iterator visits are matches, in order of position. */
  lemma {:induction false} FindAllInOrder(pat: Pattern, text: string, i: nat)
    requires Productive(pat) && i <= |text|
    ensures InOrder(pat, text, FindAll(pat, text[i..]), i)
    decreases |text| - i
  {
    if Search(pat, text[i..]).Some? {
      var f, end := FirstFound(pat, text, i);
      FindAllInOrder(pat, text, end);
      InOrderCons(pat, text, f, FindAll(pat, f.rest), i);
      FindAllFirst(pat, text[i..], f);
    }
  }

  /** Where the search for the k-th match begins: at i, or at the end of the match before. */
  function SearchStart(text: string, fs: seq<Found>, i: int, k: nat): int
    requires k <= |fs|
  {
    if k == 0 then i else Start(text, fs[k - 1]) + |Join(fs[k - 1].pieces)|
  }

  /** fs[k] is the first match at or after the end of the one before; after the last there is none. */
  ghost predicate NextMatch(pat: Pattern, text: string, fs: seq<Found>, i: int, k: nat)
    requires k <= |fs|
  {
    var at := SearchStart(text, fs, i, k);
    0 <= at <= |text| && Leftmost(pat, text, at, if k < |fs| then Some(fs[k]) else None)
  }

  /** fs is what searching from offset i on finds, match by match, to the end. */
  ghost predicate Chain(pat: Pattern, text: string, fs: seq<Found>, i: int) {
    forall k :: 0 <= k <= |fs| ==> NextMatch(pat, text, fs, i, k)
  }

  lemma ChainCons(pat: Pattern, text: string, f: Found, rest: seq<Found>, fs: seq<Found>, i: nat)
    requires i <= |text| && Leftmost(pat, text, i, Some(f)) && fs == [f] + rest
    requires Chain(pat, text, rest, Start(text, f) + |Join(f.pieces)|)
    ensures Chain(pat, text, fs, i)
  {
    forall k | 0 <= k <= |fs| ensures NextMatch(pat, text, fs, i, k) {
      if k > 0 {
        assert NextMatch(pat, text, rest, Start(text, f) + |Join(f.pieces)|, k - 1);
        assert fs[k - 1] == if k == 1 then f else rest[k - 2];
        assert k < |fs| ==> fs[k] == rest[k - 1];
      }
    }
  }

  lemma ChainEnd(pat: Pattern, text: string, i: nat)
    requires Productive(pat) && i <= |text| && Search(pat, text[i..]).None?
    ensures Chain(pat, text, FindAll(pat, text[i..]), i)
  {
    SearchIsLeftmost(pat, text, i);
    assert FindAll(pat, text[i..]) == [];
  }

  lemma FirstIsLeftmost(pat: Pattern, text: string, i: nat) returns (f: Found, end: nat)
    requires Productive(pat) && i <= |text| && Search(pat, text[i..]).Some?
    ensures Search(pat, text[i..]) == Some(f) && Leftmost(pat, text, i, Some(f))
    ensures end == Start(text, f) + |Join(f.pieces)| && i < end <= |text| && f.rest == text[end..]
  {
    SearchIsLeftmost(pat, text, i);
    f, end := FirstFound(pat, text, i);
  }

  lemma ChainStep(pat: Pattern, text: string, i: nat, s: string, f: Found, end: nat)
    requires Productive(pat) && i <= |text| && Search(pat, s) == Some(f) && Leftmost(pat, text, i, Some(f))
    requires end == Start(text, f) + |Join(f.pieces)| && end <= |text| && f.rest == text[end..]
    requires Chain(pat, text, FindAll(pat, text[end..]), end)
    ensures Chain(pat, text, FindAll(pat, s), i)
  {
    FindAllFirst(pat, s, f);
    ChainCons(pat, text, f, FindAll(pat, text[end..]), FindAll(pat, s), i);
  }

  /** The iterator visits the leftmost match, then the leftmost one after it, and so on to the last. */
  lemma {:induction false} FindAllChains(pat: Pattern, text: string, i: nat)
    requires Productive(pat) && i <= |text|
    ensures Chain(pat, text, FindAll(pat, text[i..]), i)
    decreases |text| - i
  {
    if Search(pat, text[i..]).None? {
      ChainEnd(pat, text, i);
    } else {
      var f, end := FirstIsLeftmost(pat, text, i);
      FindAllChains(pat, text, end);
      ChainStep(pat, text, i, text[i..], f, end);
    }
  }

  ghost predicate Visited(text: string, fs: seq<Found>, j: nat) {
    exists k :: 0 <= k < |fs| && Start(text, fs[k]) == j
  }

  lemma VisitedCons(text: string, f: Found, rest: seq<Found>, j: nat)
    ensures Visited(text, [f] + rest, j) <==> Start(text, f) == j || Visited(text, rest, j)
  {
    var fs := [f] + rest;
    if Start(text, f) == j {
      assert fs[0] == f;
    } else if Visited(text, rest, j) {
      var k :| 0 <= k < |rest| && Start(text, rest[k]) == j;
      assert fs[k + 1] == rest[k];
    }
  }

  /** Searching for an occurrence at or after i finds it, or a match that ends before it. */
  lemma NextFound(pat: Pattern, text: string, i: nat, j: nat) returns (f: Found, end: nat)
    requires Fenced(pat) && Productive(pat) && i <= j <= |text| && Occurs(pat, text, j)
    ensures Search(pat, text[i..]) == Some(f) && i < end <= |text| && f.rest == text[end..]
    ensures Start(text, f) == j || end <= j
  {
    SearchIsLeftmost(pat, text, i);
    f, end := FirstFound(pat, text, i);
    if Start(text, f) < j {
      NotInside(pat, text, f, j);
    }
  }

  /** The iterator misses no occurrence of a fenced pattern. */
  lemma {:induction false} FindAllMissesNone(pat: Pattern, text: string, i: nat, j: nat)
    requires Fenced(pat) && Productive(pat) && i <= j <= |text| && Occurs(pat, text, j)
    ensures Visited(text, FindAll(pat, text[i..]), j)
    decreases |text| - i
  {
    var f, end := NextFound(pat, text, i, j);
    if Start(text, f) != j {
      FindAllMissesNone(pat, text, end, j);
    }
    VisitedFirst(pat, text, text[i..], f, j);
  }

  lemma VisitedFirst(pat: Pattern, text: string, s: string, f: Found, j: nat)
    requires Productive(pat) && Search(pat, s) == Some(f)
    requires Start(text, f) == j || Visited(text, FindAll(pat, f.rest), j)
    ensures Visited(text, FindAll(pat, s), j)
  {
    VisitedCons(text, f, FindAll(pat, f.rest), j);
  }

  /** An occurrence after the start of a match of a fenced pattern is after its end. */
  lemma NotInside(pat: Pattern, text: string, f: Found, j: nat)
    requires Fenced(pat) && IsMatchIn(pat, text, f) && Start(text, f) < j <= |text| && Occurs(pat, text, j)
    ensures Start(text, f) + |Join(f.pieces)| <= j
  {
    if j < Start(text, f) + |Join(f.pieces)| {
      NoOverlap(pat, text, Start(text, f), f.pieces, j);
    }
  }
}
