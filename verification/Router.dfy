/** Split routing: suffix lists and the egress decision for one target. */
module Router {
  import opened Base
  import opened Text

  datatype Route = RouteWAN | RouteDirect

  const PROXY_DEFAULT := "proxy-default"
  const DIRECT_DEFAULT := "direct-default"

  datatype Router = Router(mode: string, directSuffixes: seq<string>, proxySuffixes: seq<string>)

  /** Index of the last `c`, or -1. */
  function LastIndex(s: string, c: char): (i: int)
    ensures -1 <= i < |s|
    ensures i >= 0 ==> s[i] == c
    ensures forall j :: i < j < |s| ==> s[j] != c
  {
    if s == [] then -1 else if s[|s| - 1] == c then |s| - 1 else LastIndex(s[..|s| - 1], c)
  }

  predicate IsDigit(c: char) {
    '0' <= c <= '9'
  }

  function StripPort(s: string): string {
    var i := LastIndex(s, ':');
    if i >= 0 && i + 1 < |s| && IsDigit(s[i + 1]) then s[..i] else s
  }

  function StripDot(s: string): string {
    if s != [] && s[|s| - 1] == '.' then s[..|s| - 1] else s
  }

  function Normalized(target: string): string {
    ToLower(StripDot(StripPort(target)))
  }

  method NormalizeHost(target: string) returns (host: string)
    ensures host == Normalized(target)
  {
    host := target;
    var i := LastIndex(host, ':');
    if i >= 0 {
      var j := i + 1;
      if j < |host| && IsDigit(host[j]) {
        host := host[..i];
      }
    }
    if host != [] && host[|host| - 1] == '.' {
      host := host[..|host| - 1];
    }
    host := ToLower(host);
  }

  /** One suffix entry against a normalised host. */
  predicate Matches(host: string, suffix: string) {
    var s := ToLower(suffix);
    if s != [] && s[0] == '.' then host == s[1..] || HasSuffix(host, s) else host == s
  }

  predicate AnyMatches(host: string, suffixes: seq<string>) {
    exists i :: 0 <= i < |suffixes| && Matches(host, suffixes[i])
  }

  predicate InList(target: string, suffixes: seq<string>) {
    Normalized(target) != "" && AnyMatches(Normalized(target), suffixes)
  }

  method MatchesAny(target: string, suffixes: seq<string>) returns (found: bool)
    ensures found == InList(target, suffixes)
  {
    var host := NormalizeHost(target);
    if host == "" { return false; }
    for i := 0 to |suffixes|
      invariant forall j :: 0 <= j < i ==> !Matches(host, suffixes[j])
    {
      var s := ToLower(suffixes[i]);
      if s != [] && s[0] == '.' {
        if host == s[1..] || HasSuffix(host, s) { return true; }
      } else if host == s {
        return true;
      }
    }
    return false;
  }

  /** No router at all means everything goes through the WAN pool. */
  function Decide(router: Option<Router>, target: string): Route {
    if router.None? then RouteWAN
    else if router.value.mode == PROXY_DEFAULT then
      if InList(target, router.value.directSuffixes) then RouteDirect else RouteWAN
    else if router.value.mode == DIRECT_DEFAULT then
      if InList(target, router.value.proxySuffixes) then RouteWAN else RouteDirect
    else RouteWAN
  }

  /** What becomes of one comma-separated part: nothing, or one entry. */
  function Entry(part: string): (r: seq<string>)
    ensures |r| <= 1
  {
    var p := ToLower(TrimSpace(part));
    if p == "" then []
    else if p[0] != '.' && '.' in p then ["." + p]
    else [p]
  }

  function Entries(parts: seq<string>): seq<string> {
    if parts == [] then [] else Entry(parts[0]) + Entries(parts[1..])
  }

  function SuffixList(s: string): seq<string> {
    Entries(Split(s, ','))
  }

  method ParseSuffixList(s: string) returns (out: seq<string>)
    ensures out == SuffixList(s)
  {
    out := [];
    var parts := Split(s, ',');
    for i := 0 to |parts|
      invariant out == Entries(parts[..i])
    {
      EntriesSnoc(parts, i);
      var part := TrimSpace(parts[i]);
      if part == "" { continue; }
      part := ToLower(part);
      if part[0] != '.' && '.' in part {
        part := "." + part;
      }
      out := out + [part];
    }
    assert parts[..|parts|] == parts;
  }

  lemma EntriesSnoc(parts: seq<string>, i: nat)
    requires i < |parts|
    ensures Entries(parts[..i + 1]) == Entries(parts[..i]) + Entry(parts[i])
  {
    assert parts[..i + 1] == parts[..i] + [parts[i]];
    EntriesConcat(parts[..i], [parts[i]]);
    assert Entries([parts[i]]) == Entry(parts[i]) + Entries([]);
  }

  function Labels(host: string): seq<string> {
    Split(host, '.')
  }

  ghost predicate LabelSuffix(of: seq<string>, tail: seq<string>) {
    |tail| <= |of| && of[|of| - |tail|..] == tail
  }

  /** A dotted entry matches exactly the hosts whose label list ends with its labels:
      whole labels are compared, so ".ple.com" does not match "example.com". */
  lemma DottedMatchesLabels(host: string, domain: string)
    requires ToLower(domain) == domain
    ensures Matches(host, "." + domain) <==> LabelSuffix(Labels(host), Labels(domain))
  {
    assert ToLower("." + domain) == "." + domain && ("." + domain)[1..] == domain;
    if HasSuffix(host, "." + domain) { TextSuffixGivesLabels(host, domain); }
    if LabelSuffix(Labels(host), Labels(domain)) { LabelsGiveTextSuffix(host, domain); }
  }

  lemma TextSuffixGivesLabels(host: string, domain: string)
    requires HasSuffix(host, "." + domain)
    ensures LabelSuffix(Labels(host), Labels(domain))
  {
    var front := host[..|host| - |domain| - 1];
    assert host == front + ['.'] + domain by {
      assert host == front + host[|front|..] && host[|front|..] == "." + domain;
    }
    SplitConcat(front, domain, '.');
  }

  lemma LabelsGiveTextSuffix(host: string, domain: string)
    requires LabelSuffix(Labels(host), Labels(domain))
    ensures host == domain || HasSuffix(host, "." + domain)
  {
    var hs, ds := Labels(host), Labels(domain);
    var front := hs[..|hs| - |ds|];
    assert hs == front + ds;
    JoinSplit(host, '.');
    JoinSplit(domain, '.');
    if front == [] {
      assert hs == ds;
    } else {
      JoinConcat(front, ds, '.');
      assert host == Join(front, '.') + ("." + domain);
    }
  }

  /** A list in terms of labels: every entry is either a dotted domain compared by
      labels or a plain name compared whole. */
  ghost predicate Listed(target: string, list: seq<string>) {
    Normalized(target) != "" && exists i :: 0 <= i < |list| && MatchesByLabels(Normalized(target), ToLower(list[i]))
  }

  lemma InListByLabels(target: string, list: seq<string>)
    ensures InList(target, list) <==> Listed(target, list)
  {
    forall i | 0 <= i < |list|
      ensures Matches(Normalized(target), list[i]) <==> MatchesByLabels(Normalized(target), ToLower(list[i]))
    {
      var s := ToLower(list[i]);
      LowerTwice(list[i]);
      if s != [] && s[0] == '.' {
        assert s == "." + s[1..];
        assert ToLower(s[1..]) == s[1..];
        DottedMatchesLabels(Normalized(target), s[1..]);
      }
    }
  }

  /** A target goes direct exactly in proxy-default mode when listed, or in
      direct-default mode when not listed. */
  lemma DirectIffListed(router: Router, target: string)
    ensures Decide(Some(router), target) == RouteDirect <==>
      || (router.mode == PROXY_DEFAULT && Listed(target, router.directSuffixes))
      || (router.mode == DIRECT_DEFAULT && !Listed(target, router.proxySuffixes))
  {
    InListByLabels(target, router.directSuffixes);
    InListByLabels(target, router.proxySuffixes);
  }

  ghost predicate MatchesByLabels(host: string, entry: string) {
    if entry != [] && entry[0] == '.' then LabelSuffix(Labels(host), Labels(entry[1..])) else host == entry
  }

  lemma LowerTwice(s: string)
    ensures ToLower(ToLower(s)) == ToLower(s)
  {
  }

  ghost predicate PortSuffix(port: string) {
    port == "" || (|port| > 1 && port[0] == ':' && forall i :: 1 <= i < |port| ==> IsDigit(port[i]))
  }

  /** Spellings of one target: `host` itself, any case, one trailing dot, a numeric port. */
  ghost predicate SpellingOf(host: string, target: string) {
    exists cased: string, dot: string, port: string ::
      && ToLower(cased) == ToLower(host) && (dot == "" || dot == ".") && PortSuffix(port)
      && target == cased + dot + port
  }

  lemma PortIsStripped(named: string, port: string)
    requires ':' !in named && PortSuffix(port)
    ensures StripPort(named + port) == named
  {
    var target := named + port;
    if port == "" {
      assert target == named;
    } else {
      assert target[|named|] == ':' && IsDigit(target[|named| + 1]);
      forall j | |named| < j < |target| ensures target[j] != ':' {
        assert IsDigit(port[j - |named|]);
      }
      assert target[..|named|] == named;
    }
  }

  lemma CaseKeepsShape(cased: string, host: string)
    requires ToLower(cased) == ToLower(host)
    requires ':' !in host && (host == [] || host[|host| - 1] != '.')
    ensures ':' !in cased && (cased == [] || cased[|cased| - 1] != '.')
  {
    assert |ToLower(cased)| == |cased| == |host|;
    forall i | 0 <= i < |cased| ensures LowerChar(cased[i]) == LowerChar(host[i]) {
      assert ToLower(cased)[i] == ToLower(host)[i];
    }
    forall c | c in cased ensures c != ':' {
      var i :| 0 <= i < |cased| && cased[i] == c;
      assert host[i] in host && LowerChar(cased[i]) == LowerChar(host[i]);
    }
  }

  lemma SpellingNormalizes(host: string, target: string)
    requires ':' !in host && (host == [] || host[|host| - 1] != '.')
    requires SpellingOf(host, target)
    ensures Normalized(target) == ToLower(host)
  {
    var cased: string, dot: string, port: string :|
      && ToLower(cased) == ToLower(host) && (dot == "" || dot == ".") && PortSuffix(port)
      && target == cased + dot + port;
    CaseKeepsShape(cased, host);
    PortIsStripped(cased + dot, port);
    DotIsStripped(cased, dot);
  }

  lemma DotIsStripped(named: string, dot: string)
    requires (named == [] || named[|named| - 1] != '.') && (dot == "" || dot == ".")
    ensures StripDot(named + dot) == named
  {
    if dot == "" {
      assert named + dot == named;
    } else {
      assert (named + dot)[..|named|] == named;
    }
  }

  /** The decision depends on neither case, nor one trailing dot, nor the port. */
  lemma DecideIgnoresSpelling(router: Option<Router>, host: string, t1: string, t2: string)
    requires ':' !in host && (host == [] || host[|host| - 1] != '.')
    requires SpellingOf(host, t1) && SpellingOf(host, t2)
    ensures Decide(router, t1) == Decide(router, t2)
  {
    SpellingNormalizes(host, t1);
    SpellingNormalizes(host, t2);
  }

  /** A bracketed literal survives exactly when its last group does not begin with a
      digit; otherwise everything from the last colon on is lost. */
  lemma BracketedSurvivesIff(front: string, group: string, lit: string)
    requires ':' !in group && lit == "[" + front + ":" + group + "]"
    ensures Normalized(lit) == ToLower(lit) <==> group == "" || !IsDigit(group[0])
    ensures group != "" && IsDigit(group[0]) ==> Normalized(lit) == ToLower(StripDot("[" + front))
  {
    var i := |front| + 1;
    assert lit[i] == ':' && lit[i + 1..] == group + "]" && lit[..i] == "[" + front;
    forall j | i < j < |lit| ensures lit[j] != ':' {
      assert lit[j] == (group + "]")[j - i - 1];
    }
    assert LastIndex(lit, ':') == i;
    assert lit[i + 1] == (group + "]")[0];
    assert |StripDot(lit[..i])| < |lit|;
  }

  /** For instance "[::1]" loses its last group. */
  lemma BracketedLiteralIsMangled()
    ensures Normalized("[::1]") == "[:"
  {
    BracketedSurvivesIff(":", "1", "[::1]");
    assert ToLower("[:") == "[:";
  }

  lemma {:induction false} EntriesConcat(a: seq<string>, b: seq<string>)
    ensures Entries(a + b) == Entries(a) + Entries(b)
  {
    if a == [] {
      assert a + b == b;
    } else {
      assert (a + b)[1..] == a[1..] + b;
      EntriesConcat(a[1..], b);
    }
  }

  /** Joining two texts with a comma appends their entry lists. */
  lemma SuffixListConcat(a: string, b: string)
    ensures SuffixList(a + "," + b) == SuffixList(a) + SuffixList(b)
  {
    SplitConcat(a, b, ',');
    EntriesConcat(Split(a, ','), Split(b, ','));
  }

  lemma {:induction false} EntriesAreFixed(parts: seq<string>)
    requires forall i :: 0 <= i < |parts| ==> ',' !in parts[i]
    ensures Entries(Entries(parts)) == Entries(parts)
    ensures forall i :: 0 <= i < |Entries(parts)| ==> ',' !in Entries(parts)[i]
  {
    if parts != [] {
      EntriesAreFixed(parts[1..]);
      EntryIsFixed(parts[0]);
      EntriesConcat(Entry(parts[0]), Entries(parts[1..]));
    }
  }

  lemma EntryIsFixed(part: string)
    requires ',' !in part
    ensures Entries(Entry(part)) == Entry(part)
    ensures forall i :: 0 <= i < |Entry(part)| ==> ',' !in Entry(part)[i]
  {
    if Entry(part) != [] {
      var e := Entry(part)[0];
      assert Entry(part) == [e];
      LoweredTrim(part);
      DottedIsNormal(ToLower(TrimSpace(part)));
      NormalIsFixed(e);
    }
  }

  /** Entries that parsing leaves alone. */
  ghost predicate Normal(e: string) {
    && e != "" && !IsSpace(e[0]) && !IsSpace(e[|e| - 1])
    && ToLower(e) == e && ',' !in e
    && (e[0] == '.' || '.' !in e)
  }

  lemma DottedIsNormal(p: string)
    requires p != "" && !IsSpace(p[0]) && !IsSpace(p[|p| - 1]) && ToLower(p) == p && ',' !in p
    ensures Normal(if p[0] != '.' && '.' in p then "." + p else p)
  {
    var d := "." + p;
    assert forall i :: 0 < i < |d| ==> d[i] == p[i - 1];
    assert ToLower(d) == d;
  }

  lemma NormalIsFixed(e: string)
    requires Normal(e)
    ensures Entries([e]) == [e]
  {
    TrimmedIsFixed(e);
    assert Entry(e) == [e];
    assert [e][1..] == [];
  }

  /** Lower-casing a trimmed part adds neither commas nor outer spaces. */
  lemma LoweredTrim(part: string)
    requires ',' !in part
    ensures var p := ToLower(TrimSpace(part));
      ',' !in p && ToLower(p) == p && (p == "" || (!IsSpace(p[0]) && !IsSpace(p[|p| - 1])))
  {
    var t := TrimSpace(part);
    forall i | 0 <= i < |t| ensures LowerChar(t[i]) != ',' {
      assert t[i] in part;
    }
  }

  /** Writing a parsed list back with commas and parsing again changes nothing. */
  lemma SuffixListIdempotent(s: string)
    ensures SuffixList(Join(SuffixList(s), ',')) == SuffixList(s)
  {
    var es := SuffixList(s);
    EntriesAreFixed(Split(s, ','));
    if es == [] {
      assert Split("", ',') == [""];
    } else {
      SplitJoin(es, ',');
    }
  }

  // ----- what a parsed list matches -----

  /** The trimmed lower-case text of a part; empty for a blank part. */
  function Written(part: string): string {
    ToLower(TrimSpace(part))
  }

  /** A blank part gives nothing; any other gives one entry, its text, with a dot put in
      front of a dotted name that has none. */
  lemma PartMeans(part: string)
    requires ',' !in part
    ensures var w := Written(part);
      && (w == "" ==> SuffixList(part) == [])
      && (w != "" ==> |SuffixList(part)| == 1)
      && (w != "" && (w[0] == '.' || '.' !in w) ==> SuffixList(part) == [w])
      && (w != "" && w[0] != '.' && '.' in w ==> SuffixList(part) == ["." + w])
  {
    SplitOfPlain(part, ',');
    assert Entries([part]) == Entry(part) + Entries([]);
  }

  /** Every entry with a dot starts with one. */
  lemma {:induction false} EntriesAreDotted(parts: seq<string>)
    ensures forall e :: e in Entries(parts) && '.' in e ==> e[0] == '.'
  {
    if parts != [] {
      EntriesAreDotted(parts[1..]);
    }
  }

  lemma ListIsDotted(s: string)
    ensures forall e :: e in SuffixList(s) && '.' in e ==> e[0] == '.'
  {
    EntriesAreDotted(Split(s, ','));
  }

  /** One list part against a host: a name with a dot stands for itself and everything
      below it, a name without for itself. */
  ghost predicate PartMatches(host: string, part: string) {
    var w := Written(part);
    && w != ""
    && if w[0] == '.' then LabelSuffix(Labels(host), Labels(w[1..]))
       else if '.' in w then LabelSuffix(Labels(host), Labels(w))
       else host == w
  }

  lemma WrittenIsLower(part: string)
    ensures ToLower(Written(part)) == Written(part)
  {
  }

  lemma EntryMatches(host: string, part: string)
    ensures AnyMatches(host, Entry(part)) <==> PartMatches(host, part)
  {
    var w := Written(part);
    if w == "" {
      assert Entry(part) == [];
    } else {
      OneMatches(host, Entry(part)[0]);
      assert Entry(part) == [Entry(part)[0]];
      WrittenMatches(host, w);
    }
  }

  lemma OneMatches(host: string, e: string)
    ensures AnyMatches(host, [e]) <==> Matches(host, e)
  {
    if Matches(host, e) { assert Matches(host, [e][0]); }
  }

  /** The entry made of a trimmed lower-case text, by labels. */
  lemma WrittenMatches(host: string, w: string)
    requires w != "" && ToLower(w) == w
    ensures Matches(host, if w[0] != '.' && '.' in w then "." + w else w) <==>
      if w[0] == '.' then LabelSuffix(Labels(host), Labels(w[1..]))
      else if '.' in w then LabelSuffix(Labels(host), Labels(w))
      else host == w
  {
    if w[0] == '.' {
      assert w == "." + w[1..];
      assert ToLower(w[1..]) == w[1..];
      DottedMatchesLabels(host, w[1..]);
    } else if '.' in w {
      DottedMatchesLabels(host, w);
    }
  }

  ghost predicate AnyPart(host: string, parts: seq<string>) {
    exists k :: 0 <= k < |parts| && PartMatches(host, parts[k])
  }

  lemma AnyPartCons(host: string, parts: seq<string>)
    requires parts != []
    ensures AnyPart(host, parts) <==> PartMatches(host, parts[0]) || AnyPart(host, parts[1..])
  {
    if AnyPart(host, parts[1..]) {
      var k :| 0 <= k < |parts[1..]| && PartMatches(host, parts[1..][k]);
      assert PartMatches(host, parts[k + 1]);
    }
    if AnyPart(host, parts) {
      var k :| 0 <= k < |parts| && PartMatches(host, parts[k]);
      assert k > 0 ==> parts[1..][k - 1] == parts[k];
    }
  }

  lemma MatchConcat(host: string, a: seq<string>, b: seq<string>)
    ensures AnyMatches(host, a + b) <==> AnyMatches(host, a) || AnyMatches(host, b)
  {
    if AnyMatches(host, b) {
      var i :| 0 <= i < |b| && Matches(host, b[i]);
      assert (a + b)[|a| + i] == b[i];
    }
    if AnyMatches(host, a) {
      var i :| 0 <= i < |a| && Matches(host, a[i]);
      assert (a + b)[i] == a[i];
    }
  }

  lemma {:induction false} EntriesMatch(host: string, parts: seq<string>)
    ensures AnyMatches(host, Entries(parts)) <==> AnyPart(host, parts)
  {
    if parts != [] {
      EntryMatches(host, parts[0]);
      EntriesMatch(host, parts[1..]);
      MatchConcat(host, Entry(parts[0]), Entries(parts[1..]));
      AnyPartCons(host, parts);
    }
  }

  /** What a configured text matches: a target is in the list exactly when some part
      between commas matches its host. */
  lemma ListMatches(target: string, s: string)
    ensures InList(target, SuffixList(s)) <==> Normalized(target) != "" && AnyPart(Normalized(target), Split(s, ','))
  {
    EntriesMatch(Normalized(target), Split(s, ','));
  }

  /** In particular "example.com" covers itself and everything below it, by labels. */
  lemma DomainMatches(target: string, d: string)
    requires d != "" && ',' !in d && '.' in d && d[0] != '.'
    requires ToLower(d) == d && !IsSpace(d[0]) && !IsSpace(d[|d| - 1])
    ensures InList(target, SuffixList(d)) <==>
      Normalized(target) != "" && LabelSuffix(Labels(Normalized(target)), Labels(d))
  {
    SplitOfPlain(d, ',');
    TrimmedIsFixed(d);
    ListMatches(target, d);
    AnyPartCons(Normalized(target), [d]);
    assert [d][1..] == [];
    assert !AnyPart(Normalized(target), []);
  }
}
