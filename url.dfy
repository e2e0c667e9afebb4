/** The URL value of the load balancer (src/lb/url.hpp, src/lb/url.cpp).

    A URL string is split by one regular expression,
      ((\w+)://)?([^/\s:]+)(:(\d{2,5}))?([^?\s#]*)([?]([^\s#]*))?([#]([^\s]*))?
    matched against the whole string. The fields of a Url are capture groups
    2 (protocol), 3 (hostname), 5 (port), 6 (path), 8 (query) and 10 (fragment);
    a missing protocol becomes "http" and a missing port the scheme's well-known
    port. The matcher here reads the string left to right and makes the choices
    a backtracking matcher makes: the optional scheme group is tried first and
    every quantifier is greedy. The pattern can split some strings in more than
    one way; MatchUrl returns the split of highest priority. */
module Urls {
  import opened Wrappers

  // ---------------------------------------------------------------------
  // Character classes of the pattern
  // ---------------------------------------------------------------------

  /** `\s`: space, tab, line feed, vertical tab, form feed, carriage return. */
  predicate IsSpace(c: char) {
    c == ' ' || c == '\t' || c == '\n' || c == '\U{B}' || c == '\U{C}' || c == '\r'
  }

  /** The character classes of the groups the fields are read from. */
  datatype CharClass =
    | Word          // \w            (scheme)
    | HostChar      // [^/\s:]       (hostname)
    | Digit         // \d            (port)
    | PathChar      // [^?\s#]       (path)
    | QueryChar     // [^\s#]        (query)
    | FragmentChar  // [^\s]         (fragment)

  predicate InClass(c: char, k: CharClass) {
    match k
    case Word => ('a' <= c <= 'z') || ('A' <= c <= 'Z') || ('0' <= c <= '9') || c == '_'
    case HostChar => c != '/' && c != ':' && !IsSpace(c)
    case Digit => '0' <= c <= '9'
    case PathChar => c != '?' && c != '#' && !IsSpace(c)
    case QueryChar => c != '#' && !IsSpace(c)
    case FragmentChar => !IsSpace(c)
  }

  predicate AllIn(t: string, k: CharClass) {
    forall i :: 0 <= i < |t| ==> InClass(t[i], k)
  }

  /** No class of the pattern admits white space. */
  lemma ClassesExcludeSpace(c: char, k: CharClass)
    requires InClass(c, k)
    ensures InClass(c, FragmentChar)
  {
  }

  lemma AllInConcat(a: string, b: string, k: CharClass)
    requires AllIn(a, k) && AllIn(b, k)
    ensures AllIn(a + b, k)
  {
    forall i | 0 <= i < |a + b|
      ensures InClass((a + b)[i], k)
    {
      if i >= |a| {
        assert (a + b)[i] == b[i - |a|];
      }
    }
  }

  lemma AllInWiden(t: string, k: CharClass)
    requires AllIn(t, k)
    ensures AllIn(t, FragmentChar)
  {
    forall i | 0 <= i < |t|
      ensures InClass(t[i], FragmentChar)
    {
      ClassesExcludeSpace(t[i], k);
    }
  }

  /** A piece of a run of class k is a run of class k. */
  lemma AllInSlice(s: string, a: nat, b: nat, c: nat, d: nat, k: CharClass)
    requires a <= c <= d <= b <= |s|
    requires AllIn(s[a..b], k)
    ensures AllIn(s[c..d], k)
  {
    forall i | 0 <= i < d - c
      ensures InClass(s[c..d][i], k)
    {
      assert s[c..d][i] == s[a..b][i + c - a];
    }
  }

  // ---------------------------------------------------------------------
  // Greedy runs
  // ---------------------------------------------------------------------

  /** Where a greedy `k*` that starts at position i of s stops: the end of the
      longest run of characters of class k. */
  function Span(s: string, i: nat, k: CharClass): (j: nat)
    requires i <= |s|
    ensures i <= j <= |s|
    ensures AllIn(s[i..j], k)
    ensures j == |s| || !InClass(s[j], k)
    decreases |s| - i
  {
    if i < |s| && InClass(s[i], k) then
      var j := Span(s, i + 1, k);
      assert forall t :: 0 < t < j - i ==> s[i..j][t] == s[i + 1..j][t - 1];
      j
    else i
  }

  /** A run of class k that ends at a character outside k is the one Span finds. */
  lemma {:induction false} SpanUnique(s: string, i: nat, k: CharClass, j: nat)
    requires i <= j <= |s|
    requires AllIn(s[i..j], k)
    requires j == |s| || !InClass(s[j], k)
    ensures Span(s, i, k) == j
    decreases j - i
  {
    if i < j {
      assert s[i] == s[i..j][0];
      AllInSlice(s, i, j, i + 1, j, k);
      SpanUnique(s, i + 1, k, j);
    }
  }

  // ---------------------------------------------------------------------
  // What the pattern accepts
  // ---------------------------------------------------------------------

  /** The capture groups the Url fields are read from: 2 (scheme), 3 (host),
      5 (port), 6 (path), 8 (query) and 10 (fragment). An optional group that
      took no part in the match is None. */
  datatype Match = Match(scheme: Option<string>, host: string, port: Option<string>,
                         path: string, query: Option<string>, fragment: Option<string>)

  /** The text of the optional group `((\w+)://)?`. */
  function SchemeText(scheme: Option<string>): string {
    match scheme
    case Some(w) => w + "://"
    case None => ""
  }

  /** The text of an optional group made of a one-character delimiter and its
      inner group: `(:(...))?`, `([?](...))?`, `([#](...))?`. */
  function Delimited(delimiter: char, part: Option<string>): string {
    match part
    case Some(t) => [delimiter] + t
    case None => ""
  }

  /** The text matched by the groups after the scheme. */
  function RestText(m: Match): string {
    m.host + Delimited(':', m.port) + m.path + Delimited('?', m.query) + Delimited('#', m.fragment)
  }

  /** The text a match spans: the groups one after the other. */
  function Render(m: Match): string {
    SchemeText(m.scheme) + RestText(m)
  }

  /** Every group after the scheme holds text its sub-pattern accepts. */
  predicate RestWellFormed(m: Match) {
    && |m.host| >= 1 && AllIn(m.host, HostChar)
    && (m.port.Some? ==> 2 <= |m.port.value| <= 5 && AllIn(m.port.value, Digit))
    && AllIn(m.path, PathChar)
    && (m.query.Some? ==> AllIn(m.query.value, QueryChar))
    && (m.fragment.Some? ==> AllIn(m.fragment.value, FragmentChar))
  }

  predicate WellFormed(m: Match) {
    && (m.scheme.Some? ==> |m.scheme.value| >= 1 && AllIn(m.scheme.value, Word))
    && RestWellFormed(m)
  }

  /** m is one of the ways the pattern matches the whole of s. */
  predicate IsParse(s: string, m: Match) {
    WellFormed(m) && Render(m) == s
  }

  /** The strings the pattern matches: non-empty, free of white space, and not
      starting with '/' or ':' (the first character opens the scheme or the host). */
  predicate Matchable(s: string) {
    |s| > 0 && s[0] != '/' && s[0] != ':' && AllIn(s, FragmentChar)
  }

  /** The choices a left-to-right matcher makes once the scheme is settled:
      the host run stops only at '/', ':' or the end, and the port group, tried
      before the path, takes as many digits as `\d{2,5}` allows. */
  predicate Greedy(s: string, m: Match) {
    var e := |SchemeText(m.scheme)| + |m.host|;
    && e <= |s|
    && (e == |s| || s[e] == '/' || s[e] == ':')
    && (m.port.Some? ==>
          var p := e + 1 + |m.port.value|;
          |m.port.value| == 5 || p >= |s| || !InClass(s[p], Digit))
    && (m.port.None? ==>
          !(e + 2 < |s| && s[e] == ':' && InClass(s[e + 1], Digit) && InClass(s[e + 2], Digit)))
  }

  /** The test the matcher makes before it commits to the scheme group: a run
      of word characters, "://", and a character that can open a host. */
  predicate SchemeCandidate(s: string) {
    var w := Span(s, 0, Word);
    0 < w && w + 3 < |s| && s[w..w + 3] == "://" && InClass(s[w + 3], HostChar)
  }

  // ---------------------------------------------------------------------
  // The matcher
  // ---------------------------------------------------------------------

  /** The positions where the groups after the scheme end, each group taken
      as greedily as the pattern allows. An optional group that took part in
      the match ends strictly after the group before it (its delimiter is
      consumed), one that did not ends where the group before it ends. */
  datatype Cuts = Cuts(hostEnd: nat, portEnd: nat, pathEnd: nat, queryEnd: nat, end: nat)

  function Cut(s: string, start: nat): (c: Cuts)
    requires start <= |s|
    ensures start <= c.hostEnd <= c.portEnd <= c.pathEnd <= c.queryEnd <= c.end <= |s|
    ensures c.hostEnd == Span(s, start, HostChar)
    ensures c.portEnd == PortEnd(s, c.hostEnd)
    ensures c.pathEnd == Span(s, c.portEnd, PathChar)
    ensures c.queryEnd == GroupEnd(s, c.pathEnd, '?', QueryChar)
    ensures c.end == GroupEnd(s, c.queryEnd, '#', FragmentChar)
  {
    var hostEnd := Span(s, start, HostChar);
    var portEnd := PortEnd(s, hostEnd);
    var pathEnd := Span(s, portEnd, PathChar);
    var queryEnd := GroupEnd(s, pathEnd, '?', QueryChar);
    Cuts(hostEnd, portEnd, pathEnd, queryEnd, GroupEnd(s, queryEnd, '#', FragmentChar))
  }

  /** Where the port group `(:(\d{2,5}))?` that starts at position i ends: it
      takes the ':' and as many of the digits after it as there are, up to five,
      and is skipped (ends at i) when fewer than two digits follow. */
  function PortEnd(s: string, i: nat): (j: nat)
    requires i <= |s|
    ensures i <= j <= |s|
    ensures j > i ==>
              && s[i] == ':' && 3 <= j - i <= 6
              && AllIn(s[i + 1..j], Digit)
              && (j - i == 6 || j == |s| || !InClass(s[j], Digit))
    ensures j == i ==>
              !(i + 2 < |s| && s[i] == ':' && InClass(s[i + 1], Digit) && InClass(s[i + 2], Digit))
  {
    var digitsEnd := if i < |s| && s[i] == ':' then Span(s, i + 1, Digit) else i;
    if digitsEnd < i + 3 then
      i
    else if digitsEnd <= i + 6 then
      digitsEnd
    else
      AllInSlice(s, i + 1, digitsEnd, i + 1, i + 6, Digit);
      assert s[i + 6] == s[i + 1..digitsEnd][5];
      i + 6
  }

  /** Where an optional group `([d](k*))?` that starts at position i ends: past
      the delimiter d and the run of class k after it when d is there, at i
      otherwise. */
  function GroupEnd(s: string, i: nat, delimiter: char, k: CharClass): (j: nat)
    requires i <= |s|
    ensures i <= j <= |s|
    ensures j > i ==> s[i] == delimiter && j == Span(s, i + 1, k)
    ensures j == i ==> i == |s| || s[i] != delimiter
  {
    if i < |s| && s[i] == delimiter then Span(s, i + 1, k) else i
  }

  /** When the groups stop short of the end of s, they stop at white space. */
  lemma CutStopsAtSpace(s: string, start: nat)
    requires start <= |s|
    requires Cut(s, start).end < |s|
    ensures !AllIn(s[start..], FragmentChar)
  {
    var e := Cut(s, start).end;
    assert IsSpace(s[e]);
    assert s[start..][e - start] == s[e];
  }

  /** The groups after the scheme matched against s[start..], each quantifier
      greedy and each optional group tried before it is skipped; None when the
      host is empty or the groups do not reach the end of s. */
  function MatchRest(s: string, start: nat, scheme: Option<string>): (r: Option<Match>)
    requires start <= |s|
    ensures r.Some? <==> start < |s| && InClass(s[start], HostChar) && AllIn(s[start..], FragmentChar)
    ensures r.Some? ==> r.value.scheme == scheme && RestWellFormed(r.value) && RestText(r.value) == s[start..]
    ensures r.Some? ==> GreedyRest(s, start, r.value)
  {
    var c := Cut(s, start);
    if c.hostEnd == start then
      None
    else if c.end < |s| then
      CutStopsAtSpace(s, start);
      None
    else
      var m := CutGroups(s, start, c, scheme);
      CutMatch(s, start, c, m);
      Some(m)
  }

  /** The greedy choices of MatchRest, stated on the positions of s. */
  predicate GreedyRest(s: string, start: nat, m: Match) {
    var e := start + |m.host|;
    && e <= |s|
    && (e == |s| || s[e] == '/' || s[e] == ':')
    && (m.port.Some? ==>
          var p := e + 1 + |m.port.value|;
          |m.port.value| == 5 || p >= |s| || !InClass(s[p], Digit))
    && (m.port.None? ==>
          !(e + 2 < |s| && s[e] == ':' && InClass(s[e + 1], Digit) && InClass(s[e + 2], Digit)))
  }

  /** The groups MatchRest cuts out of s are well formed, chosen greedily, and
      put back together give s[start..]. */
  lemma CutMatch(s: string, start: nat, c: Cuts, m: Match)
    requires start < |s| && c == Cut(s, start) && c.hostEnd > start && c.end == |s|
    requires m == CutGroups(s, start, c, m.scheme)
    ensures RestWellFormed(m) && RestText(m) == s[start..] && GreedyRest(s, start, m)
    ensures InClass(s[start], HostChar) && AllIn(s[start..], FragmentChar)
  {
    CutFacts(s, start, c);
    CutWellFormed(s, start, c, m);
    CutGroupsMatch(s, start, c, m);
  }

  /** The conclusion of CutMatch from what the runs tell about s. */
  lemma CutGroupsMatch(s: string, start: nat, c: Cuts, m: Match)
    requires start < c.hostEnd <= c.portEnd <= c.pathEnd <= c.queryEnd <= c.end == |s|
    requires c.hostEnd == |s| || !InClass(s[c.hostEnd], HostChar)
    requires c.portEnd > c.hostEnd ==> s[c.hostEnd] == ':'
    requires c.queryEnd > c.pathEnd ==> s[c.pathEnd] == '?'
    requires c.end > c.queryEnd ==> s[c.queryEnd] == '#'
    requires c.portEnd > c.hostEnd ==>
               c.portEnd - c.hostEnd == 6 || c.portEnd == |s| || !InClass(s[c.portEnd], Digit)
    requires c.portEnd == c.hostEnd ==>
               !(c.hostEnd + 2 < |s| && s[c.hostEnd] == ':'
                 && InClass(s[c.hostEnd + 1], Digit) && InClass(s[c.hostEnd + 2], Digit))
    requires m == CutGroups(s, start, c, m.scheme) && RestWellFormed(m)
    ensures RestText(m) == s[start..] && GreedyRest(s, start, m)
    ensures InClass(s[start], HostChar) && AllIn(s[start..], FragmentChar)
  {
    CutText(s, start, c, m);
    RestNoSpace(m);
    assert s[start] == m.host[0];
    HostStops(s, start, c.hostEnd);
    CutGreedy(s, start, c, m);
  }

  /** What the runs of a Cut tell about the characters at its positions. */
  lemma CutFacts(s: string, start: nat, c: Cuts)
    requires start < |s| && c == Cut(s, start) && c.hostEnd > start && c.end == |s|
    ensures c.portEnd > c.hostEnd ==> s[c.hostEnd] == ':'
    ensures c.queryEnd > c.pathEnd ==> s[c.pathEnd] == '?'
    ensures c.end > c.queryEnd ==> s[c.queryEnd] == '#'
    ensures c.portEnd > c.hostEnd ==>
              c.portEnd - c.hostEnd == 6 || c.portEnd == |s| || !InClass(s[c.portEnd], Digit)
    ensures c.portEnd == c.hostEnd ==>
              !(c.hostEnd + 2 < |s| && s[c.hostEnd] == ':'
                && InClass(s[c.hostEnd + 1], Digit) && InClass(s[c.hostEnd + 2], Digit))
  {
  }

  /** The groups a Cut delimits. */
  function CutGroups(s: string, start: nat, c: Cuts, scheme: Option<string>): Match
    requires start <= c.hostEnd <= c.portEnd <= c.pathEnd <= c.queryEnd <= c.end == |s|
  {
    Match(scheme, s[start..c.hostEnd],
          if c.portEnd > c.hostEnd then Some(s[c.hostEnd + 1..c.portEnd]) else None,
          s[c.portEnd..c.pathEnd],
          if c.queryEnd > c.pathEnd then Some(s[c.pathEnd + 1..c.queryEnd]) else None,
          if c.end > c.queryEnd then Some(s[c.queryEnd + 1..]) else None)
  }

  lemma CutWellFormed(s: string, start: nat, c: Cuts, m: Match)
    requires start < |s| && c == Cut(s, start) && c.hostEnd > start && c.end == |s|
    requires m == CutGroups(s, start, c, m.scheme)
    ensures RestWellFormed(m)
  {
    if m.fragment.Some? {
      assert s[c.queryEnd + 1..] == s[c.queryEnd + 1..c.end];
    }
  }

  lemma CutGreedy(s: string, start: nat, c: Cuts, m: Match)
    requires start < c.hostEnd <= c.portEnd <= |s|
    requires c.hostEnd == |s| || s[c.hostEnd] == '/' || s[c.hostEnd] == ':'
    requires c.portEnd > c.hostEnd ==>
               c.portEnd - c.hostEnd == 6 || c.portEnd == |s| || !InClass(s[c.portEnd], Digit)
    requires c.portEnd == c.hostEnd ==>
               !(c.hostEnd + 2 < |s| && s[c.hostEnd] == ':'
                 && InClass(s[c.hostEnd + 1], Digit) && InClass(s[c.hostEnd + 2], Digit))
    requires m.host == s[start..c.hostEnd]
    requires m.port == if c.portEnd > c.hostEnd then Some(s[c.hostEnd + 1..c.portEnd]) else None
    ensures GreedyRest(s, start, m)
  {
  }

  /** In a string free of white space, the host run stops at '/', ':' or the end. */
  lemma HostStops(s: string, start: nat, e: nat)
    requires start <= e <= |s| && (e == |s| || !InClass(s[e], HostChar))
    requires AllIn(s[start..], FragmentChar)
    ensures e == |s| || s[e] == '/' || s[e] == ':'
  {
    if e < |s| {
      assert s[start..][e - start] == s[e];
    }
  }

  lemma CutText(s: string, start: nat, c: Cuts, m: Match)
    requires start <= c.hostEnd <= c.portEnd <= c.pathEnd <= c.queryEnd <= c.end == |s|
    requires c.portEnd > c.hostEnd ==> s[c.hostEnd] == ':'
    requires c.queryEnd > c.pathEnd ==> s[c.pathEnd] == '?'
    requires c.end > c.queryEnd ==> s[c.queryEnd] == '#'
    requires m == CutGroups(s, start, c, m.scheme)
    ensures RestText(m) == s[start..]
  {
    DelimitedAt(s, c.hostEnd, c.portEnd, ':', m.port);
    DelimitedAt(s, c.pathEnd, c.queryEnd, '?', m.query);
    assert c.end > c.queryEnd ==> s[c.queryEnd + 1..] == s[c.queryEnd + 1..c.end];
    DelimitedAt(s, c.queryEnd, c.end, '#', m.fragment);
    SliceConcat(s, start, c.hostEnd, c.portEnd);
    SliceConcat(s, start, c.portEnd, c.pathEnd);
    SliceConcat(s, start, c.pathEnd, c.queryEnd);
    SliceConcat(s, start, c.queryEnd, c.end);
    assert s[start..c.end] == s[start..];
  }

  lemma SliceConcat(s: string, a: nat, b: nat, c: nat)
    requires a <= b <= c <= |s|
    ensures s[a..b] + s[b..c] == s[a..c]
  {
  }

  /** An optional delimited group cut out of s[i..j] spells s[i..j]. */
  lemma DelimitedAt(s: string, i: nat, j: nat, delimiter: char, part: Option<string>)
    requires i <= j <= |s|
    requires part == if j > i then Some(s[i + 1..j]) else None
    requires j > i ==> s[i] == delimiter
    ensures Delimited(delimiter, part) == s[i..j]
  {
  }

  /** The text of well-formed groups holds no white space. */
  lemma RestNoSpace(m: Match)
    requires RestWellFormed(m)
    ensures AllIn(RestText(m), FragmentChar)
  {
    AllInWiden(m.host, HostChar);
    if m.port.Some? {
      AllInWiden(m.port.value, Digit);
      AllInConcat([':'], m.port.value, FragmentChar);
    }
    AllInWiden(m.path, PathChar);
    if m.query.Some? {
      AllInWiden(m.query.value, QueryChar);
      AllInConcat(['?'], m.query.value, FragmentChar);
    }
    if m.fragment.Some? {
      AllInConcat(['#'], m.fragment.value, FragmentChar);
    }
    AllInConcat(m.host, Delimited(':', m.port), FragmentChar);
    AllInConcat(m.host + Delimited(':', m.port), m.path, FragmentChar);
    AllInConcat(m.host + Delimited(':', m.port) + m.path, Delimited('?', m.query), FragmentChar);
    AllInConcat(m.host + Delimited(':', m.port) + m.path + Delimited('?', m.query),
                Delimited('#', m.fragment), FragmentChar);
  }

  /** MatchUrl: the match of the whole of s (`ctre::match`), or None. The
      scheme group is tried first; when the rest of the pattern fails after it,
      the matcher backtracks and matches s without a scheme. */
  function MatchUrl(s: string): (r: Option<Match>)
    ensures r.Some? <==> Matchable(s)
    ensures r.Some? ==> IsParse(s, r.value) && Greedy(s, r.value)
    ensures r.Some? ==> (r.value.scheme.Some? <==> SchemeCandidate(s))
  {
    var w := Span(s, 0, Word);
    var withScheme := if 0 < w && w + 3 <= |s| && s[w..w + 3] == "://"
                      then MatchRest(s, w + 3, Some(s[..w])) else None;
    if withScheme.Some? then
      SchemeBranch(s, w, withScheme.value);
      withScheme
    else
      var r := MatchRest(s, 0, None);
      NoSchemeBranch(s, r);
      r
  }

  /** Matching without the scheme group covers exactly the matchable strings
      that the scheme branch does not take. */
  lemma NoSchemeBranch(s: string, r: Option<Match>)
    requires r == MatchRest(s, 0, None)
    requires var w := Span(s, 0, Word);
             !(0 < w && w + 3 <= |s| && s[w..w + 3] == "://" && MatchRest(s, w + 3, Some(s[..w])).Some?)
    ensures r.Some? <==> Matchable(s)
    ensures r.Some? ==> IsParse(s, r.value) && Greedy(s, r.value) && !SchemeCandidate(s)
  {
    NoSchemeMatchable(s);
    if r.Some? {
      NoSchemeParse(s, r.value);
      CandidateTakesScheme(s);
    }
  }

  lemma NoSchemeMatchable(s: string)
    ensures MatchRest(s, 0, None).Some? <==> Matchable(s)
  {
    assert s[0..] == s;
  }

  lemma NoSchemeParse(s: string, m: Match)
    requires MatchRest(s, 0, None) == Some(m)
    ensures IsParse(s, m) && Greedy(s, m)
  {
    assert s[0..] == s;
    WholeRest(s, m);
  }

  /** Groups without a scheme that spell all of s, chosen greedily, are a
      greedy parse of s. */
  lemma WholeRest(s: string, m: Match)
    requires m.scheme.None? && RestWellFormed(m) && RestText(m) == s && GreedyRest(s, 0, m)
    ensures IsParse(s, m) && Greedy(s, m)
  {
    WholeRestRenders(m);
    WholeRestGreedy(s, m);
  }

  lemma WholeRestRenders(m: Match)
    requires m.scheme.None?
    ensures Render(m) == RestText(m)
  {
    assert SchemeText(m.scheme) == "";
  }

  lemma WholeRestGreedy(s: string, m: Match)
    requires m.scheme.None? && GreedyRest(s, 0, m)
    ensures Greedy(s, m)
  {
    assert |SchemeText(m.scheme)| == 0;
  }

  /** On a matchable string that passes the scheme test, the scheme branch succeeds. */
  lemma CandidateTakesScheme(s: string)
    ensures var w := Span(s, 0, Word);
            Matchable(s) && SchemeCandidate(s) ==> MatchRest(s, w + 3, Some(s[..w])).Some?
  {
    var w := Span(s, 0, Word);
    if Matchable(s) && SchemeCandidate(s) {
      AllInSlice(s, 0, |s|, w + 3, |s|, FragmentChar);
      assert s[0..|s|] == s;
    }
  }

  /** The scheme branch of MatchUrl, when it succeeds, matches all of s. */
  lemma SchemeBranch(s: string, w: nat, m: Match)
    requires 0 < w && w + 3 <= |s| && w == Span(s, 0, Word) && s[w..w + 3] == "://"
    requires MatchRest(s, w + 3, Some(s[..w])) == Some(m)
    ensures IsParse(s, m) && Greedy(s, m) && Matchable(s) && SchemeCandidate(s)
  {
    assert s[w + 3] == s[w + 3..][0];
    SchemeRest(s, w, m);
  }

  /** Groups after a scheme of w word characters and "://" that spell the rest
      of s, chosen greedily, are a greedy parse of s. */
  lemma SchemeRest(s: string, w: nat, m: Match)
    requires 0 < w && w + 3 < |s| && w == Span(s, 0, Word) && s[w..w + 3] == "://"
    requires InClass(s[w + 3], HostChar) && AllIn(s[w + 3..], FragmentChar)
    requires m.scheme == Some(s[..w]) && RestWellFormed(m) && RestText(m) == s[w + 3..]
    requires GreedyRest(s, w + 3, m)
    ensures IsParse(s, m) && Greedy(s, m) && Matchable(s) && SchemeCandidate(s)
  {
    assert s[..w] == s[0..w];
    assert |SchemeText(m.scheme)| == w + 3;
    SchemeSplit(s, w);
    assert Render(m) == s;
    SchemeNoSpace(s, w);
    assert s[0] == s[..w][0];
  }

  lemma SchemeSplit(s: string, w: nat)
    requires w + 3 <= |s| && s[w..w + 3] == "://"
    ensures s[..w] + "://" + s[w + 3..] == s
  {
    assert s[..w] + s[w..w + 3] + s[w + 3..] == s;
  }

  lemma SchemeNoSpace(s: string, w: nat)
    requires w + 3 <= |s| && s[w..w + 3] == "://"
    requires AllIn(s[..w], Word) && AllIn(s[w + 3..], FragmentChar)
    ensures AllIn(s, FragmentChar)
  {
    AllInWiden(s[..w], Word);
    AllInConcat(s[..w], "://", FragmentChar);
    AllInConcat(s[..w] + "://", s[w + 3..], FragmentChar);
    SchemeSplit(s, w);
  }

  // ---------------------------------------------------------------------
  // The matcher against the pattern
  // ---------------------------------------------------------------------

  /** Where the groups of m lie in Render(m). */
  lemma RenderLayout(m: Match)
    ensures var s := Render(m);
            var e0 := |SchemeText(m.scheme)|;
            var e1 := e0 + |m.host|;
            var e2 := e1 + |Delimited(':', m.port)|;
            var e3 := e2 + |m.path|;
            var e4 := e3 + |Delimited('?', m.query)|;
            && |s| == e4 + |Delimited('#', m.fragment)|
            && s[..e0] == SchemeText(m.scheme)
            && s[e0..e1] == m.host
            && s[e1..e2] == Delimited(':', m.port)
            && s[e2..e3] == m.path
            && s[e3..e4] == Delimited('?', m.query)
            && s[e4..] == Delimited('#', m.fragment)
  {
    var a, c, e, f := SchemeText(m.scheme), Delimited(':', m.port), Delimited('?', m.query), Delimited('#', m.fragment);
    assert Render(m) == a + (m.host + c + m.path + e + f);
    SixPieces(a, m.host, c, m.path, e, f);
  }

  /** Where six strings lie in their concatenation. */
  lemma SixPieces(a: string, b: string, c: string, d: string, e: string, f: string)
    ensures var s := a + (b + c + d + e + f);
            var e0 := |a|;
            var e1 := e0 + |b|;
            var e2 := e1 + |c|;
            var e3 := e2 + |d|;
            var e4 := e3 + |e|;
            && |s| == e4 + |f|
            && s[..e0] == a && s[e0..e1] == b && s[e1..e2] == c
            && s[e2..e3] == d && s[e3..e4] == e && s[e4..] == f
  {
  }

  /** A scheme in any parse of s is the whole leading run of word characters,
      and it passes the test the matcher makes before taking the scheme group. */
  lemma SchemeOfParse(s: string, m: Match)
    requires IsParse(s, m) && m.scheme.Some?
    ensures var n := |m.scheme.value|;
            && n == Span(s, 0, Word)
            && s[..n] == m.scheme.value
            && SchemeCandidate(s)
  {
    var w := m.scheme.value;
    var n := |w|;
    RenderLayout(m);
    assert s[..n + 3] == w + "://";
    assert s[..n] == s[..n + 3][..n];
    assert s[n] == s[..n + 3][n];
    assert s[0..n] == w;
    SpanUnique(s, 0, Word, n);
    assert s[n..n + 3] == s[..n + 3][n..];
    assert s[n + 3] == s[n + 3..n + 3 + |m.host|][0];
  }

  /** Every parse of s makes MatchUrl succeed: the matcher misses no string the
      pattern accepts. */
  lemma MatchComplete(s: string, m: Match)
    requires IsParse(s, m)
    ensures MatchUrl(s).Some?
  {
    RenderLayout(m);
    RestNoSpace(m);
    if m.scheme.Some? {
      var w := m.scheme.value;
      AllInWiden(w, Word);
      AllInConcat(w, "://", FragmentChar);
      AllInConcat(w + "://", RestText(m), FragmentChar);
      assert s[0] == w[0];
    } else {
      assert s == RestText(m);
      assert s[0] == m.host[0];
    }
  }

  /** The scheme group is tried first: when some parse of s has a scheme,
      MatchUrl takes that same scheme. */
  lemma SchemeTriedFirst(s: string, m: Match)
    requires IsParse(s, m) && m.scheme.Some?
    ensures MatchUrl(s).Some? && MatchUrl(s).value.scheme == m.scheme
  {
    SchemeOfParse(s, m);
    MatchComplete(s, m);
    var r := MatchUrl(s).value;
    SchemeOfParse(s, r);
  }

  /** The groups after the scheme lie in s between the positions e0 to e4. */
  predicate Laid(s: string, m: Match, e0: nat, e1: nat, e2: nat, e3: nat, e4: nat) {
    && e0 <= e1 <= e2 <= e3 <= e4 <= |s|
    && s[e0..e1] == m.host
    && s[e1..e2] == Delimited(':', m.port)
    && s[e2..e3] == m.path
    && s[e3..e4] == Delimited('?', m.query)
    && s[e4..] == Delimited('#', m.fragment)
  }

  /** A greedy parse of s is the one the runs of Cut delimit. */
  lemma GreedyParseIsCut(s: string, m: Match)
    requires IsParse(s, m) && Greedy(s, m)
    ensures var e0 := |SchemeText(m.scheme)|;
            && e0 <= |s|
            && Cut(s, e0).end == |s|
            && m == CutGroups(s, e0, Cut(s, e0), m.scheme)
  {
    var e0 := |SchemeText(m.scheme)|;
    var c := Layout(m);
    GreedyParseLaid(s, m);
    LaidIsCut(s, m, e0, c.hostEnd, c.portEnd, c.pathEnd, c.queryEnd);
  }

  lemma GreedyParseLaid(s: string, m: Match)
    requires IsParse(s, m) && Greedy(s, m)
    ensures var e0 := |SchemeText(m.scheme)|;
            var c := Layout(m);
            && Laid(s, m, e0, c.hostEnd, c.portEnd, c.pathEnd, c.queryEnd)
            && RestWellFormed(m) && GreedyRest(s, e0, m)
  {
    LaidOfParse(s, m);
  }

  /** Where the groups of m end in Render(m). */
  function Layout(m: Match): Cuts {
    var e1 := |SchemeText(m.scheme)| + |m.host|;
    var e2 := e1 + |Delimited(':', m.port)|;
    var e3 := e2 + |m.path|;
    var e4 := e3 + |Delimited('?', m.query)|;
    Cuts(e1, e2, e3, e4, e4 + |Delimited('#', m.fragment)|)
  }

  lemma LaidOfParse(s: string, m: Match)
    requires Render(m) == s
    ensures var c := Layout(m);
            Laid(s, m, |SchemeText(m.scheme)|, c.hostEnd, c.portEnd, c.pathEnd, c.queryEnd)
  {
    RenderLayout(m);
  }

  lemma LaidIsCut(s: string, m: Match, e0: nat, e1: nat, e2: nat, e3: nat, e4: nat)
    requires Laid(s, m, e0, e1, e2, e3, e4) && RestWellFormed(m) && GreedyRest(s, e0, m)
    ensures Cut(s, e0) == Cuts(e1, e2, e3, e4, |s|)
    ensures m == CutGroups(s, e0, Cut(s, e0), m.scheme)
  {
    LaidCut(s, m, e0, e1, e2, e3, e4);
    LaidGroups(s, m, e0, e1, e2, e3, e4);
    assert Cut(s, e0) == Cuts(e1, e2, e3, e4, |s|);
  }

  lemma LaidCut(s: string, m: Match, e0: nat, e1: nat, e2: nat, e3: nat, e4: nat)
    requires Laid(s, m, e0, e1, e2, e3, e4) && RestWellFormed(m) && GreedyRest(s, e0, m)
    ensures Cut(s, e0) == Cuts(e1, e2, e3, e4, |s|)
  {
    SpanUnique(s, e0, HostChar, e1);
    PortOfLaid(s, m, e0, e1, e2, e3, e4);
    PathOfLaid(s, m, e0, e1, e2, e3, e4);
    QueryOfLaid(s, m, e0, e1, e2, e3, e4);
    FragmentOfLaid(s, m, e0, e1, e2, e3, e4);
  }

  lemma LaidGroups(s: string, m: Match, e0: nat, e1: nat, e2: nat, e3: nat, e4: nat)
    requires Laid(s, m, e0, e1, e2, e3, e4)
    requires m.port.Some? ==> e2 > e1
    requires m.query.Some? ==> e4 > e3
    requires m.fragment.Some? ==> |s| > e4
    ensures m == CutGroups(s, e0, Cuts(e1, e2, e3, e4, |s|), m.scheme)
  {
    if m.port.Some? {
      assert s[e1 + 1..e2] == s[e1..e2][1..];
    }
    if m.query.Some? {
      assert s[e3 + 1..e4] == s[e3..e4][1..];
    }
    if m.fragment.Some? {
      assert s[e4 + 1..] == s[e4..][1..];
    }
  }

  lemma PortOfLaid(s: string, m: Match, e0: nat, e1: nat, e2: nat, e3: nat, e4: nat)
    requires Laid(s, m, e0, e1, e2, e3, e4) && RestWellFormed(m) && GreedyRest(s, e0, m)
    ensures PortEnd(s, e1) == e2
  {
    if m.port.Some? {
      var p := m.port.value;
      assert s[e1] == s[e1..e2][0];
      assert s[e1 + 1..e2] == s[e1..e2][1..];
      if |p| < 5 {
        SpanUnique(s, e1 + 1, Digit, e2);
      } else {
        SpanAtLeast(s, e1 + 1, Digit, e2);
      }
    } else if e1 < |s| && s[e1] == ':' {
      DigitsShort(s, e1 + 1);
    }
  }

  lemma PathOfLaid(s: string, m: Match, e0: nat, e1: nat, e2: nat, e3: nat, e4: nat)
    requires Laid(s, m, e0, e1, e2, e3, e4) && RestWellFormed(m)
    ensures Span(s, e2, PathChar) == e3
  {
    if m.query.Some? {
      assert s[e3] == s[e3..e4][0];
    } else if e3 < |s| {
      assert s[e3] == s[e4..][0];
    }
    SpanUnique(s, e2, PathChar, e3);
  }

  lemma QueryOfLaid(s: string, m: Match, e0: nat, e1: nat, e2: nat, e3: nat, e4: nat)
    requires Laid(s, m, e0, e1, e2, e3, e4) && RestWellFormed(m)
    ensures GroupEnd(s, e3, '?', QueryChar) == e4
  {
    if m.query.Some? {
      assert s[e3] == s[e3..e4][0];
      assert s[e3 + 1..e4] == s[e3..e4][1..];
      assert e4 < |s| ==> s[e4] == s[e4..][0];
      SpanUnique(s, e3 + 1, QueryChar, e4);
    } else if e3 < |s| {
      assert s[e3] == s[e4..][0];
    }
  }

  lemma FragmentOfLaid(s: string, m: Match, e0: nat, e1: nat, e2: nat, e3: nat, e4: nat)
    requires Laid(s, m, e0, e1, e2, e3, e4) && RestWellFormed(m)
    ensures GroupEnd(s, e4, '#', FragmentChar) == |s|
  {
    if m.fragment.Some? {
      assert s[e4] == s[e4..][0];
      assert s[e4 + 1..|s|] == s[e4..][1..];
      SpanUnique(s, e4 + 1, FragmentChar, |s|);
    }
  }

  /** Fewer than two digits at i: the digit run is shorter than two. */
  lemma DigitsShort(s: string, i: nat)
    requires i <= |s|
    requires !(i + 1 < |s| && InClass(s[i], Digit) && InClass(s[i + 1], Digit))
    ensures Span(s, i, Digit) < i + 2
  {
    if i < |s| && InClass(s[i], Digit) {
      if i + 1 < |s| {
        assert AllIn(s[i..i + 1], Digit);
        SpanUnique(s, i, Digit, i + 1);
      }
    } else {
      SpanUnique(s, i, Digit, i);
    }
  }

  /** A greedy run reaches at least as far as any run of its class. */
  lemma {:induction false} SpanAtLeast(s: string, i: nat, k: CharClass, j: nat)
    requires i <= j <= |s|
    requires AllIn(s[i..j], k)
    ensures Span(s, i, k) >= j
    decreases j - i
  {
    if i < j {
      assert s[i] == s[i..j][0];
      AllInSlice(s, i, j, i + 1, j, k);
      SpanAtLeast(s, i + 1, k, j);
    }
  }

  /** MatchUrl returns the parse of s that the pattern's priorities select:
      among all parses, the one that takes the scheme group when it can and
      is greedy afterwards. With the ensures of MatchUrl, this characterises
      its result completely. */
  lemma GreedyParseIsTheMatch(s: string, m: Match)
    requires IsParse(s, m) && Greedy(s, m)
    requires m.scheme.None? ==> !SchemeCandidate(s)
    ensures MatchUrl(s) == Some(m)
  {
    MatchComplete(s, m);
    var r := MatchUrl(s).value;
    if m.scheme.Some? {
      SchemeTriedFirst(s, m);
    }
    assert r.scheme == m.scheme;
    GreedyParseIsCut(s, m);
    GreedyParseIsCut(s, r);
  }

  // ---------------------------------------------------------------------
  // Url
  // ---------------------------------------------------------------------

  /** A parsed URL: the six strings a Url keeps and its accessors return. */
  datatype Url = Url(protocol: string, hostname: string, port: string,
                     path: string, query: string, fragment: string)

  datatype UrlError =
    | InvalidUrl(text: string)            // the string does not match the pattern
    | UnknownProtocol(protocol: string)   // no port given and the scheme has no default

  /** The well-known ports the constructor falls back on. */
  const DefaultPorts: map<string, string> :=
    map["http" := "80", "https" := "443", "ftp" := "21", "ssh" := "22"]

  /** DefaultProtocolPort: the port of a scheme from the table, or an error
      asking for the port to be given. */
  function DefaultProtocolPort(protocol: string): (r: Result<string, UrlError>)
    ensures r.Ok? <==> protocol in {"http", "https", "ftp", "ssh"}
    ensures r.Err? ==> r.error == UnknownProtocol(protocol)
    ensures protocol == "http" ==> r == Ok("80")
    ensures protocol == "https" ==> r == Ok("443")
    ensures protocol == "ftp" ==> r == Ok("21")
    ensures protocol == "ssh" ==> r == Ok("22")
  {
    if protocol in DefaultPorts then Ok(DefaultPorts[protocol]) else Err(UnknownProtocol(protocol))
  }

  /** Url::IsUrl: whether the whole string matches the pattern. */
  function IsUrl(s: string): (r: bool)
    ensures r <==> Matchable(s)
  {
    MatchUrl(s).Some?
  }

  /** A string is a URL exactly when the pattern has some way to match it. */
  lemma IsUrlIffSomeParse(s: string)
    ensures IsUrl(s) <==> exists m :: IsParse(s, m)
  {
    if exists m :: IsParse(s, m) {
      var m :| IsParse(s, m);
      MatchComplete(s, m);
    }
  }

  /** What every Url the constructor builds satisfies: each field holds text
      of its group's class, and the port is two to five digits. */
  predicate ValidUrl(u: Url) {
    && |u.protocol| >= 1 && AllIn(u.protocol, Word)
    && |u.hostname| >= 1 && AllIn(u.hostname, HostChar)
    && 2 <= |u.port| <= 5 && AllIn(u.port, Digit)
    && AllIn(u.path, PathChar)
    && AllIn(u.query, QueryChar)
    && AllIn(u.fragment, FragmentChar)
  }

  /** The default ports are all digits, two or three of them. */
  lemma DefaultPortShape(protocol: string)
    ensures protocol in DefaultPorts ==>
              2 <= |DefaultPorts[protocol]| <= 3 && AllIn(DefaultPorts[protocol], Digit)
  {
    if protocol in DefaultPorts {
      var p := DefaultPorts[protocol];
      assert p == "80" || p == "443" || p == "21" || p == "22";
    }
  }

  lemma HttpIsWord()
    ensures AllIn("http", Word)
  {
    var h := "http";
    assert h[0] == 'h' && h[1] == 't' && h[2] == 't' && h[3] == 'p';
  }

  /** The fields of a Url from the groups of a match: protocol defaults to
      "http", an absent port to the protocol's well-known port, an absent query
      or fragment to the empty string. */
  function UrlOf(m: Match): (r: Result<Url, UrlError>)
    requires WellFormed(m)
    ensures r.Ok? ==> ValidUrl(r.value)
    ensures r.Err? ==> r.error.UnknownProtocol? && m.port.None? && m.scheme.Some?
                       && r.error.protocol == m.scheme.value && m.scheme.value !in DefaultPorts
  {
    var scheme := m.scheme.GetOr("");
    var protocol := if scheme != "" then scheme else "http";
    var explicitPort := m.port.GetOr("");
    var port := if explicitPort != "" then Ok(explicitPort) else DefaultProtocolPort(protocol);
    match port
    case Err(e) => Err(e)
    case Ok(p) =>
      HttpIsWord();
      DefaultPortShape(protocol);
      Ok(Url(protocol, m.host, p, m.path, m.query.GetOr(""), m.fragment.GetOr("")))
  }

  /** Url::Url: match the whole string and read its groups. Fails on a string
      that does not match, and on a scheme without a default port when no port
      is given. */
  function ParseUrl(s: string): (r: Result<Url, UrlError>)
    ensures r == Err(InvalidUrl(s)) <==> !IsUrl(s)
    ensures r.Ok? ==> ValidUrl(r.value)
    ensures r.Err? && r.error.UnknownProtocol? ==>
              var m := MatchUrl(s).value;
              m.port.None? && m.scheme.Some? && m.scheme.value !in DefaultPorts
  {
    match MatchUrl(s)
    case None => Err(InvalidUrl(s))
    case Some(m) => UrlOf(m)
  }

  /** operator==: the six fields compared pairwise, which is equality of Urls. */
  function SameUrl(a: Url, b: Url): (r: bool)
    ensures r <==> a == b
  {
    && a.protocol == b.protocol && a.hostname == b.hostname && a.port == b.port
    && a.path == b.path && a.query == b.query && a.fragment == b.fragment
  }

  // ---------------------------------------------------------------------
  // What the constructor promises
  // ---------------------------------------------------------------------

  /** The fields are the match's groups: the protocol is the scheme or "http",
      an explicit port is kept as written, a missing one is the protocol's
      default or an UnknownProtocol error, and an absent query or fragment is
      empty. */
  lemma ParseUrlFields(s: string)
    requires IsUrl(s)
    ensures var m := MatchUrl(s).value;
            var protocol := if m.scheme.Some? then m.scheme.value else "http";
            && (m.port.Some? ==> ParseUrl(s).Ok? && ParseUrl(s).value.port == m.port.value)
            && (m.port.None? ==> (ParseUrl(s).Ok? <==> protocol in DefaultPorts))
            && (m.port.None? && protocol in DefaultPorts ==> ParseUrl(s).value.port == DefaultPorts[protocol])
            && (ParseUrl(s).Err? ==> ParseUrl(s).error == UnknownProtocol(protocol))
            && (ParseUrl(s).Ok? ==>
                  var u := ParseUrl(s).value;
                  && u.protocol == protocol && u.hostname == m.host && u.path == m.path
                  && u.query == m.query.GetOr("") && u.fragment == m.fragment.GetOr(""))
  {
    var m := MatchUrl(s).value;
    assert m.scheme.Some? ==> m.scheme.value != "";
    assert m.port.Some? ==> m.port.value != "";
  }

  /** A URL with no scheme is an http URL and always gets a port. */
  lemma NoSchemeIsHttp(s: string)
    requires IsUrl(s) && !SchemeCandidate(s)
    ensures ParseUrl(s).Ok? && ParseUrl(s).value.protocol == "http"
    ensures MatchUrl(s).value.port.None? ==> ParseUrl(s).value.port == "80"
  {
    ParseUrlFields(s);
  }

  /** Absent parts may be mistaken for empty ones: a query or fragment group
      that is absent and one that is present but empty give the same Url. */
  /** An empty query group and an absent one give the same Url. */
  lemma EmptyQueryGroupLooksAbsent(m: Match)
    requires WellFormed(m) && m.query == Some("")
    ensures UrlOf(m) == UrlOf(m.(query := None))
  {
  }

  lemma EmptyQueryLooksAbsent()
    ensures ParseUrl("h/p?") == ParseUrl("h/p")
  {
    var a := Match(None, "h", None, "/p", Some(""), None);
    var b := Match(None, "h", None, "/p", None, None);
    assert Render(a) == "h/p?";
    assert Render(b) == "h/p";
    GreedyParseIsTheMatch("h/p?", a);
    GreedyParseIsTheMatch("h/p", b);
  }

  // ---------------------------------------------------------------------
  // Writing a Url back
  // ---------------------------------------------------------------------

  function NonEmpty(t: string): Option<string> {
    if t == "" then None else Some(t)
  }

  /** The groups a Url is written with: scheme, host and port always, the
      query and the fragment when they are not empty. */
  function Groups(u: Url): Match {
    Match(Some(u.protocol), u.hostname, Some(u.port), u.path, NonEmpty(u.query), NonEmpty(u.fragment))
  }

  /** The text of a Url with every part spelled out. */
  function Format(u: Url): string {
    Render(Groups(u))
  }

  /** Writing a Url out and parsing the text gives the Url back, unless the
      path begins with a digit that the greedy port (fewer than five digits)
      would take. */
  lemma ParseFormat(u: Url)
    requires ValidUrl(u)
    requires |u.port| == 5 || u.path == "" || !InClass(u.path[0], Digit)
    ensures ParseUrl(Format(u)) == Ok(u)
  {
    UrlOfGroups(u);
    FormatIsGreedy(u);
    ParseOfGreedyParse(Format(u), Groups(u));
  }

  /** The groups a Url is written with are the greedy parse of its text. */
  lemma FormatIsGreedy(u: Url)
    requires ValidUrl(u)
    requires |u.port| == 5 || u.path == "" || !InClass(u.path[0], Digit)
    ensures Greedy(Format(u), Groups(u))
  {
    var m := Groups(u);
    var head := SchemeText(m.scheme) + m.host;
    var tail := u.path + Delimited('?', m.query) + Delimited('#', m.fragment);
    assert Format(u) == head + ([':'] + u.port) + tail;
    if |u.port| != 5 && tail != [] {
      TailStart(u.path, m.query, m.fragment);
    }
    PortThenTail(Format(u), m, head, tail);
  }

  /** What follows the port group opens the path, the query or the fragment. */
  lemma TailStart(path: string, query: Option<string>, fragment: Option<string>)
    requires path + Delimited('?', query) + Delimited('#', fragment) != []
    ensures var tail := path + Delimited('?', query) + Delimited('#', fragment);
            tail[0] == (if path != [] then path[0] else if query.Some? then '?' else '#')
  {
  }

  /** The greedy choices hold of a match whose port group is followed by a
      character that is not a digit, or that has five digits. */
  lemma PortThenTail(s: string, m: Match, head: string, tail: string)
    requires m.port.Some? && |head| == |SchemeText(m.scheme)| + |m.host|
    requires s == head + ([':'] + m.port.value) + tail
    requires |m.port.value| == 5 || tail == [] || !InClass(tail[0], Digit)
    ensures Greedy(s, m)
  {
    var p := |head| + 1 + |m.port.value|;
    assert s[|head|] == ':';
    if p < |s| {
      assert s[p] == tail[0];
    }
  }

  /** Reading the groups a Url is written with gives the Url. */
  lemma UrlOfGroups(u: Url)
    requires ValidUrl(u)
    ensures WellFormed(Groups(u)) && UrlOf(Groups(u)) == Ok(u)
  {
  }

  /** The Url read from a greedy parse that takes the scheme group: the
      fields are the groups of that parse. */
  lemma ParseOfGreedyParse(s: string, m: Match)
    requires IsParse(s, m) && Greedy(s, m) && m.scheme.Some?
    ensures ParseUrl(s) == UrlOf(m)
  {
    GreedyParseIsTheMatch(s, m);
  }

  /** The URL of the backend test: scheme and host only. */
  lemma UrlExampleHostOnly()
    ensures ParseUrl("https://www.example.com")
            == Ok(Url("https", "www.example.com", "443", "", "", ""))
  {
    var m := Match(Some("https"), "www.example.com", None, "", None, None);
    ExampleHostOnlyParse(m);
    ParseOfGreedyParse("https://www.example.com", m);
  }

  lemma ExampleHostOnlyParse(m: Match)
    requires m == Match(Some("https"), "www.example.com", None, "", None, None)
    ensures IsParse("https://www.example.com", m) && Greedy("https://www.example.com", m)
  {
    ExampleHostOnlyClasses(m);
    assert Render(m) == "https://www.example.com";
  }

  lemma ExampleHostOnlyClasses(m: Match)
    requires m == Match(Some("https"), "www.example.com", None, "", None, None)
    ensures WellFormed(m)
  {
    HttpsIsWord();
    ExampleHostChars();
  }

  lemma HttpsIsWord()
    ensures AllIn("https", Word)
  {
    var h := "https";
    assert h[0] == 'h' && h[1] == 't' && h[2] == 't' && h[3] == 'p' && h[4] == 's';
  }

  lemma ExampleHostChars()
    ensures AllIn("www.example.com", HostChar)
  {
    var h := "www.example.com";
    forall i | 0 <= i < |h|
      ensures InClass(h[i], HostChar)
    {
      assert h[i] in "w.exampleco";
    }
  }
}
