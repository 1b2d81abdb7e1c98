/** Normalization of the base URL of the REST client. */
module RestUrl {
  import opened Wrappers

  const PORT := ":4000"
  const SCHEME := "https"
  const LRZ := ".quantum.lrz.de"
  const PATHWAY := ".quantumpathway.eu"
  const DOMAINS := [LRZ, PATHWAY]
  const NO_PATH := ""
  const ROOT := "/"
  const V1 := "/v1"
  const V1_SLASH := "/v1/"

  /** Upper-case letters of the "C" locale. */
  function ToLower(c: char): char {
    if 'A' <= c <= 'Z' then (c as int + 32) as char else c
  }

  function Lower(s: string): (r: string)
    ensures |r| == |s| && forall i :: 0 <= i < |s| ==> r[i] == ToLower(s[i])
  {
    seq(|s|, i requires 0 <= i < |s| => ToLower(s[i]))
  }

  predicate EndsWith(s: string, t: string) {
    |s| >= |t| && s[|s| - |t|..] == t
  }

  /** The first position of c in s at or after `from`; |s| if there is none. */
  function IndexOf(s: string, c: char, from: nat): (r: nat)
    requires from <= |s|
    ensures from <= r <= |s| && (r < |s| ==> s[r] == c)
    ensures forall i :: from <= i < r ==> s[i] != c
    decreases |s| - from
  {
    if from == |s| || s[from] == c then from else IndexOf(s, c, from + 1)
  }

  predicate SeparatorAt(s: string, i: nat) {
    i + 3 <= |s| && s[i] == ':' && s[i + 1] == '/' && s[i + 2] == '/'
  }

  /** The first position of "://" in s at or after `from`; |s| if there is none. */
  function Separator(s: string, from: nat): (r: nat)
    requires from <= |s|
    ensures from <= r <= |s| && (r < |s| ==> SeparatorAt(s, r))
    ensures forall i :: from <= i < r ==> !SeparatorAt(s, i)
    decreases |s| - from
  {
    if from == |s| || SeparatorAt(s, from) then from else Separator(s, from + 1)
  }

  predicate PlainChar(c: char) {
    c as int > 0x20 && c as int != 0x7f && c != '?' && c != '#'
  }

  predicate PlainText(s: string) {
    forall i :: 0 <= i < |s| ==> PlainChar(s[i])
  }

  // ------------------------------------------------------------ the documented meaning

  /** An absolute URL without blanks, query or fragment, and with an authority. */
  predicate WellShaped(url: string) {
    && PlainText(url)
    && var sep := Separator(url, 0);
       sep + 3 < |url| && url[sep + 3] != '/'
  }

  function SchemeOf(url: string): string
    requires WellShaped(url)
  {
    Lower(url[..Separator(url, 0)])
  }

  function PathStart(url: string): (p: nat)
    requires WellShaped(url)
    ensures Separator(url, 0) + 3 < p <= |url|
  {
    IndexOf(url, '/', Separator(url, 0) + 3)
  }

  function Authority(url: string): string
    requires WellShaped(url)
  {
    url[Separator(url, 0) + 3..PathStart(url)]
  }

  function PathOf(url: string): string
    requires WellShaped(url)
  {
    url[PathStart(url)..]
  }

  /** `curl` stands for what the URL parser of libcurl accepts. */
  predicate Accepted(curl: string -> bool, url: string) {
    WellShaped(url) && curl(url) && (SchemeOf(url) == "http" || SchemeOf(url) == SCHEME)
  }

  function DropPort(host: string): string {
    if |host| > |PORT| && EndsWith(host, PORT) then host[..|host| - |PORT|] else host
  }

  /** host is a non-empty prefix and the domain. */
  predicate InDomain(host: string, domain: string) {
    |host| > |domain| && EndsWith(host, domain)
  }

  predicate PortalHost(host: string) {
    InDomain(host, LRZ) || InDomain(host, PATHWAY)
  }

  predicate PortalPath(path: string) {
    path == NO_PATH || path == ROOT || path == V1 || path == V1_SLASH
  }

  function CanonicalHost(url: string): string
    requires WellShaped(url)
  {
    DropPort(Lower(Authority(url)))
  }

  predicate IsPortal(url: string)
    requires WellShaped(url)
  {
    SchemeOf(url) == SCHEME && PortalPath(PathOf(url)) && PortalHost(CanonicalHost(url))
  }

  function PortalUrl(host: string): string {
    "https://" + host + PORT + V1_SLASH
  }

  predicate EndsWithSlash(url: string) {
    url != "" && url[|url| - 1] == '/'
  }

  function WithSlash(url: string): string {
    if EndsWithSlash(url) then url else url + ROOT
  }

  function Normal(url: string): string
    requires WellShaped(url)
  {
    if IsPortal(url) then PortalUrl(CanonicalHost(url)) else WithSlash(url)
  }

  // ------------------------------------------------------------ the code

  datatype UrlError = InvalidUrl

  /** std::transform with tolower, in place. */
  method LowerInPlace(text: string) returns (origin: string)
    ensures origin == Lower(text)
  {
    origin := text;
    for i := 0 to |origin|
      invariant |origin| == |text|
      invariant forall j :: 0 <= j < |text| ==> origin[j] == if j < i then ToLower(text[j]) else text[j]
    {
      origin := origin[i := ToLower(origin[i])];
    }
  }

  lemma InSomeDomain(host: string, k: nat)
    requires k < |DOMAINS| && InDomain(host, DOMAINS[k])
    ensures PortalHost(host)
  {
    assert DOMAINS == [LRZ, PATHWAY];
  }

  lemma InNoDomain(host: string)
    requires forall k :: 0 <= k < |DOMAINS| ==> !InDomain(host, DOMAINS[k])
    ensures !PortalHost(host)
  {
    assert DOMAINS[0] == LRZ && DOMAINS[1] == PATHWAY;
  }

  method ErasePort(authority: string) returns (host: string)
    ensures host == DropPort(authority)
  {
    host := authority;
    if |host| > |PORT| && host[|host| - |PORT|..] == PORT {
      host := host[..|host| - |PORT|];
    }
  }

  method MatchDomain(host: string) returns (found: bool)
    ensures found <==> PortalHost(host)
  {
    for k := 0 to |DOMAINS|
      invariant forall j :: 0 <= j < k ==> !InDomain(host, DOMAINS[j])
    {
      var domain := DOMAINS[k];
      if |host| > |domain| && host[|host| - |domain|..] == domain {
        InSomeDomain(host, k);
        return true;
      }
    }
    InNoDomain(host);
    return false;
  }

  /** The portal form of an https origin with one of the four paths, if its host is a portal's. */
  method MatchPortal(authority: string) returns (r: Option<string>)
    ensures r == if PortalHost(DropPort(authority)) then Some(PortalUrl(DropPort(authority))) else None
  {
    var host := ErasePort(authority);
    var found := MatchDomain(host);
    return if found then Some("https://" + host + PORT + "/v1/") else None;
  }

  /** The condition under which normalizeUrl throws before asking libcurl. */
  predicate Malformed(url: string) {
    var separator := Separator(url, 0);
    || url == ""
    || (exists i :: 0 <= i < |url| && (url[i] as int <= 0x20 || url[i] as int == 0x7f))
    || separator == |url| || separator + 3 == |url| || url[separator + 3] == '/'
    || (exists i :: 0 <= i < |url| && (url[i] == '?' || url[i] == '#'))
  }

  lemma MalformedIff(url: string)
    ensures Malformed(url) <==> !WellShaped(url)
  {
  }

  lemma LowerAuthority(url: string)
    requires WellShaped(url)
    ensures Lower(url[..PathStart(url)])[Separator(url, 0) + 3..] == Lower(Authority(url))
  {
  }

  method NormalizeUrl(curl: string -> bool, url: string) returns (r: Result<string, UrlError>)
    ensures r.Ok? <==> Accepted(curl, url)
    ensures r.Ok? ==> r.value == Normal(url)
  {
    var separator := Separator(url, 0);
    MalformedIff(url);
    if Malformed(url) {
      return Err(InvalidUrl);
    }
    if !curl(url) {
      return Err(InvalidUrl);
    }
    var scheme := Lower(url[..separator]);
    if scheme != "http" && scheme != "https" {
      return Err(InvalidUrl);
    }
    var pathStart := IndexOf(url, '/', separator + 3);
    var origin := LowerInPlace(url[..pathStart]);
    var path := url[pathStart..];
    if scheme == "https" && (path == "" || path == "/" || path == "/v1" || path == "/v1/") {
      LowerAuthority(url);
      var portal := MatchPortal(origin[separator + 3..]);
      if portal.Some? {
        return Ok(portal.value);
      }
    }
    return Ok(if url[|url| - 1] == '/' then url else url + "/");
  }

  // ------------------------------------------------------------ reading off a spelled-out URL

  lemma LowerLower(s: string)
    ensures Lower(Lower(s)) == Lower(s)
  {
  }

  lemma LowerConcat(s: string, t: string)
    ensures Lower(s + t) == Lower(s) + Lower(t)
  {
  }

  lemma LowerSlice(s: string, i: nat, j: nat)
    requires i <= j <= |s|
    ensures Lower(s)[i..j] == Lower(s[i..j])
  {
  }

  /** The parts of scheme://authority+path, when the scheme has no colon, the authority is not
      empty and has no slash, and the path is empty or starts with one. */
  lemma Parts(url: string, scheme: string, authority: string, path: string)
    requires PlainText(url) && url == scheme + "://" + authority + path
    requires ':' !in scheme && authority != "" && '/' !in authority && (path == "" || path[0] == '/')
    ensures WellShaped(url) && Separator(url, 0) == |scheme| && PathStart(url) == |scheme| + 3 + |authority|
    ensures SchemeOf(url) == Lower(scheme) && Authority(url) == authority && PathOf(url) == path
  {
    var n := |scheme|;
    assert forall i :: 0 <= i < n ==> url[i] == scheme[i];
    assert SeparatorAt(url, n);
    assert Separator(url, 0) == n;
    assert forall i :: n + 3 <= i < n + 3 + |authority| ==> url[i] == authority[i - n - 3];
    assert path != "" ==> url[n + 3 + |authority|] == path[0];
    assert IndexOf(url, '/', n + 3) == n + 3 + |authority|;
    assert url[..n] == scheme;
  }

  /** A portal host does not itself end in the port. */
  lemma PortalHostKeepsEnd(host: string)
    requires PortalHost(host)
    ensures host != "" && !EndsWith(host, PORT) && DropPort(host) == host
  {
    assert LRZ[|LRZ| - 1] == 'e' && PATHWAY[|PATHWAY| - 1] == 'u' && PORT[|PORT| - 1] == '0';
    SameEnd(host, LRZ);
    SameEnd(host, PATHWAY);
    SameEnd(host, PORT);
  }

  lemma SameEnd(s: string, t: string)
    ensures EndsWith(s, t) && t != "" ==> s[|s| - 1] == t[|t| - 1]
  {
    if EndsWith(s, t) && t != "" {
      assert s[|s| - |t|..][|t| - 1] == s[|s| - 1];
    }
  }

  lemma DropThePort(host: string)
    requires host != ""
    ensures DropPort(host + PORT) == host
  {
    assert (host + PORT)[|host|..] == PORT;
  }

  /** The same character, or the two cases of one letter. */
  predicate SameLetter(a: char, b: char) {
    || a == b
    || ('A' <= a <= 'Z' && b as int == a as int + 32)
    || ('A' <= b <= 'Z' && a as int == b as int + 32)
  }

  predicate SameButCase(s: string, t: string) {
    |s| == |t| && forall i :: 0 <= i < |s| ==> SameLetter(s[i], t[i])
  }

  predicate NoCapitals(s: string) {
    forall i :: 0 <= i < |s| ==> !('A' <= s[i] <= 'Z')
  }

  /** A name before the domain, in any letter case. */
  predicate Under(host: string, domain: string) {
    |host| > |domain| && SameButCase(host[|host| - |domain|..], domain)
  }

  /** url is a spelling of the portal at `host`: any letter case, the port given or not, and any
      of the four paths. */
  ghost predicate Spells(url: string, scheme: string, host: string, port: string, path: string) {
    && url == scheme + "://" + (host + port) + path
    && SameButCase(scheme, "https") && '/' !in host
    && (Under(host, ".quantum.lrz.de") || Under(host, ".quantumpathway.eu"))
    && (port == "" || port == ":4000")
    && (path == "" || path == "/" || path == "/v1" || path == "/v1/")
  }

  lemma LetterCase(a: char, b: char)
    ensures ToLower(a) == ToLower(b) <==> SameLetter(a, b)
  {
  }

  lemma LowerIffSame(s: string, t: string)
    ensures Lower(s) == Lower(t) <==> SameButCase(s, t)
  {
    if |s| == |t| {
      forall i | 0 <= i < |s| ensures Lower(s)[i] == Lower(t)[i] <==> SameLetter(s[i], t[i]) {
        LetterCase(s[i], t[i]);
      }
      if SameButCase(s, t) {
        assert forall i :: 0 <= i < |s| ==> Lower(s)[i] == Lower(t)[i];
      }
    } else {
      assert |Lower(s)| != |Lower(t)|;
    }
  }

  lemma UnderIff(host: string, domain: string)
    requires Lower(domain) == domain
    ensures Under(host, domain) <==> InDomain(Lower(host), domain)
  {
    if |host| > |domain| {
      var k := |host| - |domain|;
      LowerSlice(host, k, |host|);
      assert host[k..|host|] == host[k..] && Lower(host)[k..|host|] == Lower(host)[k..];
      LowerIffSame(host[k..], domain);
    }
  }

  lemma LowerTexts()
    ensures Lower(LRZ) == LRZ && Lower(PATHWAY) == PATHWAY && Lower(SCHEME) == SCHEME
  {
    LowerFixed(LRZ);
    LowerFixed(PATHWAY);
    LowerFixed(SCHEME);
  }

  /** Spelled in any case is spelled right in lower case. */
  lemma SpellsIff(url: string, scheme: string, host: string, port: string, path: string)
    ensures Spells(url, scheme, host, port, path) <==> LowerSpells(url, scheme, host, port, path)
  {
    LowerTexts();
    LowerIffSame(scheme, SCHEME);
    UnderIff(host, LRZ);
    UnderIff(host, PATHWAY);
  }

  /** The same, as the code checks it. */
  ghost predicate LowerSpells(url: string, scheme: string, host: string, port: string, path: string) {
    && url == scheme + "://" + (host + port) + path
    && Lower(scheme) == SCHEME && '/' !in host && PortalHost(Lower(host))
    && (port == "" || port == PORT) && PortalPath(path)
  }

  lemma SchemeHasNoColon(scheme: string)
    requires Lower(scheme) == SCHEME
    ensures ':' !in scheme
  {
    forall i | 0 <= i < |scheme| ensures scheme[i] != ':' {
      assert ToLower(scheme[i]) == SCHEME[i];
    }
  }

  lemma PortText()
    ensures Lower(PORT) == PORT && '/' !in PORT && PlainText(PORT)
  {
  }

  /** Every spelling of a portal is recognized, and its host is read off lower-cased. */
  lemma SpellingIsPortal(url: string, scheme: string, host: string, port: string, path: string)
    requires PlainText(url) && Spells(url, scheme, host, port, path)
    ensures WellShaped(url) && IsPortal(url) && CanonicalHost(url) == Lower(host)
  {
    SpellsIff(url, scheme, host, port, path);
    PortalHostKeepsEnd(Lower(host));
    SchemeHasNoColon(scheme);
    PortText();
    assert host != "" && '/' !in host + port;
    Parts(url, scheme, host + port, path);
    LowerConcat(host, port);
    if port == "" {
      assert Lower(host) + Lower(port) == Lower(host);
    } else {
      DropThePort(Lower(host));
    }
  }

  /** Only spellings of a portal are recognized. */
  lemma PortalIsSpelling(url: string) returns (scheme: string, host: string, port: string, path: string)
    requires WellShaped(url) && IsPortal(url)
    ensures Spells(url, scheme, host, port, path) && Lower(host) == CanonicalHost(url)
  {
    scheme, path := url[..Separator(url, 0)], PathOf(url);
    host, port := SplitPort(Authority(url));
    WholeUrl(url);
    assert forall i :: 0 <= i < |host| ==> host[i] == Authority(url)[i];
    SpellsIff(url, scheme, host, port, path);
  }

  lemma WholeUrl(url: string)
    requires WellShaped(url)
    ensures url == url[..Separator(url, 0)] + "://" + Authority(url) + PathOf(url)
    ensures forall i :: 0 <= i < |Authority(url)| ==> Authority(url)[i] != '/'
  {
    ThreeParts(url, Separator(url, 0), PathStart(url));
  }

  lemma ThreeParts(s: string, i: nat, j: nat)
    requires SeparatorAt(s, i) && i + 3 <= j <= |s|
    ensures s == s[..i] + "://" + s[i + 3..j] + s[j..]
  {
    assert s[i..i + 3] == "://";
    assert s == s[..i] + s[i..i + 3] + s[i + 3..j] + s[j..];
  }

  lemma SplitPort(authority: string) returns (host: string, port: string)
    ensures authority == host + port && (port == "" || port == PORT)
    ensures Lower(host) == DropPort(Lower(authority))
  {
    var lower := Lower(authority);
    if |lower| > |PORT| && EndsWith(lower, PORT) {
      var n := |authority| - |PORT|;
      host, port := authority[..n], authority[n..];
      LowerSlice(authority, 0, n);
      LowerSlice(authority, n, |authority|);
      assert lower[..n] == lower[0..n] && lower[n..] == lower[n..|authority|];
      LowerIsPort(port);
    } else {
      host, port := authority, "";
    }
  }

  lemma LowerIsPort(port: string)
    requires Lower(port) == PORT
    ensures port == PORT
  {
    forall i | 0 <= i < |port| ensures port[i] == PORT[i] {
      assert ToLower(port[i]) == PORT[i];
    }
  }

  // ------------------------------------------------------------ the theorems

  lemma SpellingNormal(url: string, scheme: string, host: string, port: string, path: string)
    requires PlainText(url) && Spells(url, scheme, host, port, path)
    ensures WellShaped(url) && IsPortal(url) && Normal(url) == "https://" + Lower(host) + ":4000/v1/"
  {
    SpellingIsPortal(url, scheme, host, port, path);
    PortalText(Lower(host));
  }

  lemma PortalText(host: string)
    ensures PortalUrl(host) == "https://" + host + ":4000/v1/"
  {
    assert PORT + V1_SLASH == ":4000/v1/";
  }

  /** r is the portal form for the given host: the host in lower case, with port and path. */
  ghost predicate PortalForm(r: string, host: string) {
    exists h :: r == "https://" + h + ":4000/v1/" && SameButCase(h, host) && NoCapitals(h)
  }

  lemma LowerIsForm(host: string)
    ensures SameButCase(Lower(host), host) && NoCapitals(Lower(host))
  {
    LowerLower(host);
    LowerIffSame(Lower(host), host);
    LowerFixed(Lower(host));
  }

  lemma SpellingForm(url: string, scheme: string, host: string, port: string, path: string)
    requires PlainText(url) && Spells(url, scheme, host, port, path)
    ensures WellShaped(url) && IsPortal(url) && PortalForm(Normal(url), host)
  {
    SpellingNormal(url, scheme, host, port, path);
    LowerIsForm(host);
  }

  ghost predicate IsSpelled(url: string) {
    exists scheme, host, port, path :: Spells(url, scheme, host, port, path)
  }

  /** The documented specification, both ways: the portal form is given exactly to the spellings
      of a portal, with a host that differs from the supplied one in letter case only, and every
      other accepted URL is kept up to one trailing slash. */
  lemma NormalMeetsDocumentation(url: string)
    requires WellShaped(url)
    ensures IsPortal(url) <==> IsSpelled(url)
    ensures forall scheme, host, port, path ::
              Spells(url, scheme, host, port, path) ==> PortalForm(Normal(url), host)
    ensures !IsSpelled(url) ==> Normal(url) == if url[|url| - 1] == '/' then url else url + "/"
    ensures Normal(url) != "" && Normal(url)[|Normal(url)| - 1] == '/'
  {
    if IsPortal(url) {
      var scheme, host, port, path := PortalIsSpelling(url);
    }
    forall scheme, host, port, path | Spells(url, scheme, host, port, path)
      ensures IsPortal(url) && PortalForm(Normal(url), host)
    {
      SpellingForm(url, scheme, host, port, path);
    }
  }

  /** Only spellings of a portal are given a portal form. */
  lemma FormMeansSpelled(url: string, host: string)
    requires WellShaped(url) && Normal(url) == "https://" + host + ":4000/v1/" && '/' !in host
    requires Under(host, ".quantum.lrz.de") || Under(host, ".quantumpathway.eu")
    ensures IsSpelled(url)
  {
    NormalMeetsDocumentation(url);
    if !IsPortal(url) {
      var n := Normal(url);
      assert PlainText(n);
      FormIsSpelled(n, host);
      SpellingIsPortal(n, "https", host, ":4000", "/v1/");
      if !EndsWithSlash(url) {
        SlashKeepsParts(url);
      }
    }
  }

  lemma FormIsSpelled(r: string, host: string)
    requires r == "https://" + host + ":4000/v1/" && '/' !in host
    requires Under(host, ".quantum.lrz.de") || Under(host, ".quantumpathway.eu")
    ensures Spells(r, "https", host, ":4000", "/v1/")
  {
    assert "https://" == "https" + "://" && ":4000/v1/" == ":4000" + "/v1/";
    RegroupForm("https://", host, ":4000", "/v1/");
  }

  lemma RegroupForm(a: string, b: string, c: string, d: string)
    ensures a + b + (c + d) == a + (b + c) + d
  {
  }

  // ------------------------------------------------------------ what is accepted

  predicate SlashesAt(url: string, i: nat) {
    i + 3 <= |url| && url[i..i + 3] == "://"
  }

  ghost predicate FirstSeparator(url: string, i: nat) {
    SlashesAt(url, i) && forall j: nat :: j < i ==> !SlashesAt(url, j)
  }

  lemma SeparatorText(s: string, i: nat)
    ensures SeparatorAt(s, i) <==> SlashesAt(s, i)
  {
    if i + 3 <= |s| {
      var t := s[i..i + 3];
      assert t == [t[0], t[1], t[2]];
    }
  }

  lemma FirstSeparatorIff(url: string, i: nat)
    ensures FirstSeparator(url, i) <==> i < |url| && Separator(url, 0) == i
  {
    var sep := Separator(url, 0);
    SeparatorText(url, i);
    SeparatorText(url, sep);
    forall j: nat | j < sep || j < i ensures SeparatorAt(url, j) <==> SlashesAt(url, j) {
      SeparatorText(url, j);
    }
  }

  /** No blank, no control character, no query, no fragment. */
  predicate NoBadCharacter(url: string) {
    forall i :: 0 <= i < |url| ==> url[i] as int > 32 && url[i] as int != 127 && url[i] != '?' && url[i] != '#'
  }

  /** A scheme of http or https in any case before the first separator, and a name after it. */
  ghost predicate HttpAt(url: string, i: nat) {
    && FirstSeparator(url, i) && i + 3 < |url| && url[i + 3] != '/'
    && (SameButCase(url[..i], "http") || SameButCase(url[..i], "https"))
  }

  lemma HttpScheme(s: string)
    ensures Lower(s) == "http" <==> SameButCase(s, "http")
    ensures Lower(s) == SCHEME <==> SameButCase(s, "https")
  {
    LowerFixed("http");
    LowerFixed(SCHEME);
    LowerIffSame(s, "http");
    LowerIffSame(s, SCHEME);
  }

  /** Exactly the absolute http and https URLs without bad characters are accepted, if libcurl
      accepts them too. */
  lemma AcceptedIff(curl: string -> bool, url: string)
    ensures Accepted(curl, url) <==> curl(url) && NoBadCharacter(url) && exists i: nat :: HttpAt(url, i)
  {
    var sep := Separator(url, 0);
    HttpScheme(url[..sep]);
    FirstSeparatorIff(url, sep);
    forall i: nat | HttpAt(url, i) ensures i == sep {
      FirstSeparatorIff(url, i);
    }
    if Accepted(curl, url) {
      assert HttpAt(url, sep);
    }
  }

  lemma CanonicalHostPlain(url: string)
    requires WellShaped(url) && IsPortal(url)
    ensures PlainText(CanonicalHost(url)) && '/' !in CanonicalHost(url)
    ensures Lower(CanonicalHost(url)) == CanonicalHost(url)
  {
    var authority := Authority(url);
    var n := |CanonicalHost(url)|;
    assert CanonicalHost(url) == Lower(authority)[0..n];
    LowerSlice(authority, 0, n);
    LowerLower(authority[0..n]);
    assert PlainText(authority[0..n]) && '/' !in authority[0..n];
  }

  /** The canonical form is itself a spelling of the portal it names. */
  lemma PortalUrlIsFixed(url: string)
    requires WellShaped(url) && IsPortal(url)
    ensures var c := PortalUrl(CanonicalHost(url));
            WellShaped(c) && IsPortal(c) && SchemeOf(c) == SCHEME && CanonicalHost(c) == CanonicalHost(url)
  {
    var host := CanonicalHost(url);
    CanonicalHostPlain(url);
    PortalUrlSpells(host);
    SpellingIsPortal(PortalUrl(host), SCHEME, host, PORT, V1_SLASH);
  }

  lemma PortalUrlSpells(host: string)
    requires PlainText(host) && '/' !in host && Lower(host) == host && PortalHost(host)
    ensures PlainText(PortalUrl(host)) && Spells(PortalUrl(host), SCHEME, host, PORT, V1_SLASH)
  {
    PortText();
    assert PlainText(SCHEME) && PlainText("://") && PlainText(V1_SLASH) && PlainText("https://");
    assert "https://" == SCHEME + "://";
    RegroupForm("https://", host, PORT, V1_SLASH);
    RegroupLeft("https://", host, PORT, V1_SLASH);
    assert Lower(SCHEME) == SCHEME;
    SpellsIff(PortalUrl(host), SCHEME, host, PORT, V1_SLASH);
  }

  lemma RegroupLeft(a: string, b: string, c: string, d: string)
    ensures a + b + c + d == a + b + (c + d)
  {
  }

  lemma SlashOnPath(path: string)
    requires path == "" || path[|path| - 1] != '/'
    ensures PortalPath(path + ROOT) <==> PortalPath(path)
  {
    var longer := path + ROOT;
    assert longer[..|path|] == path && longer[|path|] == '/';
    assert V1[|V1| - 1] == '1' && V1_SLASH[..3] == V1 && V1_SLASH == V1 + ROOT && ROOT == "" + ROOT;
    assert |V1_SLASH| == 4 && V1_SLASH[3] == '/';
  }

  lemma SlashKeepsSeparator(url: string)
    requires WellShaped(url)
    ensures Separator(url + ROOT, 0) == Separator(url, 0)
  {
    var s, sep := url + ROOT, Separator(url, 0);
    assert forall i :: 0 <= i < |url| ==> s[i] == url[i];
    assert SeparatorAt(s, sep);
    forall i: nat | i < sep ensures !SeparatorAt(s, i) {
      assert !SeparatorAt(url, i);
    }
  }

  lemma SlashKeepsPathStart(url: string, from: nat)
    requires from <= |url|
    ensures IndexOf(url + ROOT, '/', from) == IndexOf(url, '/', from)
  {
    var s, start := url + ROOT, IndexOf(url, '/', from);
    assert s[start] == '/';
    assert forall i :: from <= i < start ==> s[i] == url[i] != '/';
  }

  /** Adding the slash changes neither scheme nor authority, and never makes a portal of a URL
      that is none. */
  lemma SlashKeepsParts(url: string)
    requires WellShaped(url) && !EndsWithSlash(url)
    ensures var s := url + ROOT;
            WellShaped(s) && SchemeOf(s) == SchemeOf(url) && (IsPortal(s) <==> IsPortal(url))
  {
    var s, sep, start := url + ROOT, Separator(url, 0), PathStart(url);
    SlashKeepsSeparator(url);
    SlashKeepsPathStart(url, sep + 3);
    assert s[sep + 3] == url[sep + 3] && PlainText(s);
    SlashKeepsAuthority(url);
    SlashOnPath(PathOf(url));
  }

  lemma SlashKeepsAuthority(url: string)
    requires WellShaped(url) && WellShaped(url + ROOT)
    requires Separator(url + ROOT, 0) == Separator(url, 0) && PathStart(url + ROOT) == PathStart(url)
    ensures SchemeOf(url + ROOT) == SchemeOf(url) && Authority(url + ROOT) == Authority(url)
    ensures PathOf(url + ROOT) == PathOf(url) + ROOT
  {
    var sep, start := Separator(url, 0), PathStart(url);
    TakeOfConcat(url, ROOT, sep);
    SliceOfConcat(url, ROOT, sep + 3, start);
    DropOfConcat(url, ROOT, start);
  }

  lemma TakeOfConcat(s: string, t: string, n: nat)
    requires n <= |s|
    ensures (s + t)[..n] == s[..n]
  {
  }

  lemma SliceOfConcat(s: string, t: string, i: nat, j: nat)
    requires i <= j <= |s|
    ensures (s + t)[i..j] == s[i..j]
  {
  }

  lemma DropOfConcat(s: string, t: string, n: nat)
    requires n <= |s|
    ensures (s + t)[n..] == s[n..] + t
  {
  }

  /** libcurl accepts what normalization makes of an accepted URL. */
  ghost predicate ClosedUnderNormalForm(curl: string -> bool) {
    && (forall url :: WellShaped(url) && curl(url) ==> curl(WithSlash(url)))
    && (forall url :: WellShaped(url) && curl(url) && IsPortal(url) ==> curl(PortalUrl(CanonicalHost(url))))
  }

  /** Normalizing twice is normalizing once, and the result is accepted again. */
  lemma NormalIsIdempotent(curl: string -> bool, url: string)
    requires Accepted(curl, url)
    ensures WellShaped(Normal(url)) && Normal(Normal(url)) == Normal(url)
    ensures IsPortal(Normal(url)) <==> IsPortal(url)
    ensures ClosedUnderNormalForm(curl) ==> Accepted(curl, Normal(url))
  {
    if IsPortal(url) {
      PortalUrlIsFixed(url);
    } else if !EndsWithSlash(url) {
      SlashKeepsParts(url);
    }
  }

  /** Two spellings of portals normalize to the same text exactly when their hosts agree up to
      letter case; case of the scheme, port and choice of path never matter. */
  lemma PortalsHaveOneForm(u: string, uScheme: string, uHost: string, uPort: string, uPath: string,
                           v: string, vScheme: string, vHost: string, vPort: string, vPath: string)
    requires PlainText(u) && Spells(u, uScheme, uHost, uPort, uPath)
    requires PlainText(v) && Spells(v, vScheme, vHost, vPort, vPath)
    ensures WellShaped(u) && WellShaped(v)
    ensures Normal(u) == Normal(v) <==> SameButCase(uHost, vHost)
  {
    LowerIffSame(uHost, vHost);
    SpellingIsPortal(u, uScheme, uHost, uPort, uPath);
    SpellingIsPortal(v, vScheme, vHost, vPort, vPath);
    PortalUrlInjective(Lower(uHost), Lower(vHost));
  }

  lemma PortalUrlInjective(a: string, b: string)
    ensures PortalUrl(a) == PortalUrl(b) ==> a == b
  {
    assert PortalUrl(a)[8..|PortalUrl(a)| - 9] == a;
    assert PortalUrl(b)[8..|PortalUrl(b)| - 9] == b;
  }

  /** The documentation says that the supplied host name is preserved. The portal form writes it
      in lower case, so that holds exactly for hosts without capital letters. */
  lemma HostPreservedIffLowerCase(url: string, scheme: string, host: string, port: string, path: string)
    requires PlainText(url) && Spells(url, scheme, host, port, path)
    ensures WellShaped(url)
    ensures Normal(url) == "https://" + host + ":4000/v1/" <==>
              forall i :: 0 <= i < |host| ==> !('A' <= host[i] <= 'Z')
  {
    SpellingIsPortal(url, scheme, host, port, path);
    PortalText(host);
    PortalUrlInjective(host, Lower(host));
    LowerFixed(host);
  }

  lemma LowerFixed(s: string)
    ensures Lower(s) == s <==> forall i :: 0 <= i < |s| ==> !('A' <= s[i] <= 'Z')
  {
    if Lower(s) == s {
      forall i | 0 <= i < |s| ensures !('A' <= s[i] <= 'Z') {
        assert ToLower(s[i]) == s[i];
      }
    }
  }

  lemma HttpsNormal(url: string, host: string)
    requires PlainText(url) && url == "https://" + host && '/' !in host && PortalHost(Lower(host))
    ensures WellShaped(url) && Normal(url) == "https://" + Lower(host) + ":4000/v1/"
  {
    assert Lower(SCHEME) == SCHEME;
    assert host + "" == host && SCHEME + "://" == "https://";
    assert url == SCHEME + "://" + (host + "") + "";
    SpellsIff(url, SCHEME, host, "", "");
    SpellingNormal(url, SCHEME, host, "", "");
  }

  lemma InItsDomain(prefix: string, domain: string)
    requires prefix != ""
    ensures InDomain(prefix + domain, domain)
  {
    assert (prefix + domain)[|prefix|..] == domain;
  }

  lemma LrzText()
    ensures Lower(LRZ) == LRZ && '/' !in LRZ && PlainText(LRZ)
  {
  }

  lemma LetterText()
    ensures Lower("A") == "a" && '/' !in "A" && PlainText("A") && PlainText("https://")
  {
  }

  /** A host that is not preserved: A.quantum.lrz.de. */
  lemma CapitalIsLowered()
    ensures WellShaped("https://" + ("A" + LRZ))
    ensures Normal("https://" + ("A" + LRZ)) == "https://" + ("a" + LRZ) + ":4000/v1/"
  {
    LrzText();
    LetterText();
    LowerConcat("A", LRZ);
    InItsDomain("a", LRZ);
    HttpsNormal("https://" + ("A" + LRZ), "A" + LRZ);
  }
}
