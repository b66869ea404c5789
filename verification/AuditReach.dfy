/**
 * The check of a dependency audit report (scripts/ci/validate-mobile-npm-audit.js): only the
 * expected advisories, and every listed package caused by the one package that has them.
 */
module AuditReach {
  import opened Options

  const TARGET := "image-size"

  const EXPECTED := ["GHSA-5p2g-fcmc-qvqq", "GHSA-w3rx-r6r6-pgpr"]

  // ---- dependency paths, and the search for one ----

  type Edges = map<string, seq<string>>

  function Next(edges: Edges, name: string): seq<string> {
    if name in edges then edges[name] else []
  }

  /** Each package on the way depends on the next. */
  ghost predicate IsPath(edges: Edges, path: seq<string>) {
    path != [] && forall i | 0 <= i < |path| - 1 :: path[i + 1] in Next(edges, path[i])
  }

  ghost predicate Leads(edges: Edges, path: seq<string>, from: string) {
    IsPath(edges, path) && path[0] == from && path[|path| - 1] == TARGET
  }

  ghost predicate CausedByTarget(edges: Edges, name: string) {
    exists path :: Leads(edges, path, name)
  }

  /** reachesImageSize: a depth-first search that gives each branch its own visiting set. */
  predicate Reaches(edges: Edges, name: string, visiting: set<string>)
    decreases edges.Keys - visiting
  {
    if name == TARGET then true
    else if name in visiting || name !in edges then false
    else
      var nextVisiting := visiting + {name};
      assert name in edges.Keys - visiting && name !in edges.Keys - nextVisiting;
      exists i | 0 <= i < |edges[name]| :: Reaches(edges, edges[name][i], nextVisiting)
  }

  lemma {:induction false} FoundPath(edges: Edges, name: string, visiting: set<string>) returns (path: seq<string>)
    requires Reaches(edges, name, visiting)
    ensures Leads(edges, path, name)
    decreases edges.Keys - visiting
  {
    if name == TARGET {
      path := [name];
    } else {
      var i :| 0 <= i < |edges[name]| && Reaches(edges, edges[name][i], visiting + {name});
      assert name in edges.Keys - visiting;
      var rest := FoundPath(edges, edges[name][i], visiting + {name});
      path := [name] + rest;
      forall j | 0 <= j < |path| - 1 ensures path[j + 1] in Next(edges, path[j]) {
        if j > 0 { assert path[j + 1] == rest[j] && path[j] == rest[j - 1]; }
      }
    }
  }

  /** The last place of a package on a path. */
  function LastPlace(path: seq<string>, name: string): (k: nat)
    requires name in path
    ensures k < |path| && path[k] == name && name !in path[k + 1..]
  {
    if path[|path| - 1] == name then |path| - 1
    else
      var k := LastPlace(path[..|path| - 1], name);
      assert path[k + 1..] == path[..|path| - 1][k + 1..] + [path[|path| - 1]];
      k
  }

  /** A path that keeps out of the visiting set is found: its part after the last stay at the start keeps out of more. */
  lemma {:induction false} PathIsFound(edges: Edges, path: seq<string>, name: string, visiting: set<string>)
    requires Leads(edges, path, name) && forall x | x in path :: x !in visiting
    ensures Reaches(edges, name, visiting)
    decreases edges.Keys - visiting
  {
    if name != TARGET {
      var k := LastPlace(path, name);
      var rest := path[k + 1..];
      assert rest != [] by { assert path[|path| - 1] == TARGET; }
      assert rest[0] == path[k + 1] && path[k + 1] in Next(edges, path[k]);
      assert IsPath(edges, rest) by {
        forall i | 0 <= i < |rest| - 1 ensures rest[i + 1] in Next(edges, rest[i]) {
          assert rest[i + 1] == path[k + 1 + i + 1] && rest[i] == path[k + 1 + i];
        }
      }
      assert forall x | x in rest :: x in path;
      assert name in edges.Keys - visiting;
      PathIsFound(edges, rest, rest[0], visiting + {name});
      var i :| 0 <= i < |edges[name]| && edges[name][i] == rest[0];
    }
  }

  /** The search, on any finite graph, cycles and all, finds out whether there is a path. */
  lemma ReachesExactlyWhenCaused(edges: Edges, name: string)
    ensures Reaches(edges, name, {}) <==> CausedByTarget(edges, name)
  {
    if Reaches(edges, name, {}) {
      var path := FoundPath(edges, name, {});
    }
    if path :| Leads(edges, path, name) {
      PathIsFound(edges, path, name, {});
    }
  }

  // ---- advisory ids ----

  function Lower(c: char): char {
    if 'A' <= c <= 'Z' then 'a' + (c - 'A') else c
  }

  /** Equal but for the case of ASCII letters; `pattern` is in lower case. */
  predicate Matches(s: string, pattern: string) {
    |s| == |pattern| && forall i | 0 <= i < |s| :: Lower(s[i]) == pattern[i]
  }

  const WAY := "/advisories/"
  const KIND := "ghsa-"

  predicate IsId(id: string) {
    |id| > |KIND| && Matches(id[..|KIND|], KIND)
    && forall i | |KIND| <= i < |id| :: 'a' <= Lower(id[i]) <= 'z' || '0' <= id[i] <= '9' || id[i] == '-'
  }

  /** The text behind the last slash. */
  function AfterSlash(url: string): (r: string)
    ensures |r| <= |url| && url[|url| - |r|..] == r && '/' !in r
    ensures |r| < |url| ==> url[|url| - |r| - 1] == '/'
  {
    if url == [] || url[|url| - 1] == '/' then []
    else
      var r := AfterSlash(url[..|url| - 1]);
      assert url == url[..|url| - 1] + [url[|url| - 1]];
      r + [url[|url| - 1]]
  }

  /** The id at the end of an advisory's URL. */
  function AdvisoryId(url: string): Option<string> {
    var id := AfterSlash(url);
    var way := |url| - |id|;
    if IsId(id) && way >= |WAY| && Matches(url[way - |WAY|..way], WAY) then Some(id) else None
  }

  /** What the pattern asks for: the URL ends in `/advisories/` and the id, letters in either case. */
  predicate EndsWithId(url: string, id: string) {
    var at := |url| - |id|;
    at >= |WAY| && url[at..] == id && Matches(url[at - |WAY|..at], WAY) && IsId(id)
  }

  lemma WayEndsInSlash(way: string)
    requires Matches(way, WAY)
    ensures way[|WAY| - 1] == '/'
  {
    assert Lower(way[|WAY| - 1]) == WAY[|WAY| - 1];
  }

  lemma IdIsBehindLastSlash(url: string, id: string)
    requires EndsWithId(url, id)
    ensures AfterSlash(url) == id
  {
    var at := |url| - |id|;
    IdHasNoSlash(id);
    WayEndsInSlash(url[at - |WAY|..at]);
    SlashIsLast(url, at);
  }

  /** The pattern fits one id at most, and that is the one taken. */
  lemma AdvisoryIdIsExact(url: string, id: string)
    ensures AdvisoryId(url) == Some(id) <==> EndsWithId(url, id)
  {
    if EndsWithId(url, id) { IdIsBehindLastSlash(url, id); }
  }

  lemma IdHasNoSlash(id: string)
    requires IsId(id)
    ensures '/' !in id
  {
    forall i | 0 <= i < |id| ensures id[i] != '/' {
      if i < |KIND| { assert Lower(id[..|KIND|][i]) == KIND[i]; }
    }
  }

  lemma {:induction false} SlashIsLast(url: string, at: nat)
    requires 1 <= at <= |url| && url[at - 1] == '/' && '/' !in url[at..]
    ensures AfterSlash(url) == url[at..]
  {
    var n := |url| - 1;
    if at <= n {
      assert url[at..] == url[..n][at..] + [url[n]];
      SlashIsLast(url[..n], at);
    }
  }

  // ---- the report ----

  datatype Cause = Package(name: string) | Advisory(url: Option<string>) | OtherCause

  datatype Record = NotARecord | Record(name: Option<string>, via: Option<seq<Cause>>)

  datatype Entry = Entry(name: string, record: Record)

  /** The vulnerabilities map in the order of its entries; None when it is missing. */
  type Report = Option<seq<Entry>>

  predicate GoodCause(c: Cause) {
    c.Package? || (c.Advisory? && c.url.Some? && AdvisoryId(c.url.value).Some?)
  }

  function Causes(r: Record): seq<Cause> {
    if r.Record? && r.via.Some? then r.via.value else []
  }

  predicate GoodEntry(e: Entry) {
    && e.record.Record? && e.record.name == Some(e.name) && e.record.via.Some?
    && forall c | c in e.record.via.value :: GoodCause(c)
  }

  function EdgeOf(c: Cause): seq<string> {
    if c.Package? then [c.name] else []
  }

  /** An advisory named by a package itself. */
  datatype Direct = Direct(package: string, id: string)

  function DirectOf(package: string, c: Cause): seq<Direct> {
    if c.Advisory? && c.url.Some? && AdvisoryId(c.url.value).Some? then [Direct(package, AdvisoryId(c.url.value).value)] else []
  }

  function EdgesOf(causes: seq<Cause>): seq<string> {
    if causes == [] then [] else EdgesOf(causes[..|causes| - 1]) + EdgeOf(causes[|causes| - 1])
  }

  function DirectsOf(package: string, causes: seq<Cause>): seq<Direct> {
    if causes == [] then [] else DirectsOf(package, causes[..|causes| - 1]) + DirectOf(package, causes[|causes| - 1])
  }

  function Graph(entries: seq<Entry>): Edges {
    if entries == [] then map[]
    else
      var last := entries[|entries| - 1];
      Graph(entries[..|entries| - 1])[last.name := EdgesOf(Causes(last.record))]
  }

  function AllDirects(entries: seq<Entry>): seq<Direct> {
    if entries == [] then []
    else
      var last := entries[|entries| - 1];
      AllDirects(entries[..|entries| - 1]) + DirectsOf(last.name, Causes(last.record))
  }

  function Ids(directs: seq<Direct>): seq<string> {
    seq(|directs|, i requires 0 <= i < |directs| => directs[i].id)
  }

  /** Every package depended on is listed itself. */
  predicate Closed(edges: Edges) {
    forall name | name in edges :: forall d | d in edges[name] :: d in edges
  }

  /** The reports that are let through. */
  ghost predicate Acceptable(report: Report) {
    && report.Some?
    && (forall e | e in report.value :: GoodEntry(e))
    && multiset(Ids(AllDirects(report.value))) == multiset(EXPECTED)
    && (forall d | d in AllDirects(report.value) :: d.package == TARGET)
    && var edges := Graph(report.value);
    && Closed(edges)
    && (forall name | name in edges :: CausedByTarget(edges, name))
  }

  // ---- the check ----

  method ReadCauses(package: string, causes: seq<Cause>) returns (ok: bool, edges: seq<string>, directs: seq<Direct>)
    ensures ok <==> forall c | c in causes :: GoodCause(c)
    ensures ok ==> edges == EdgesOf(causes) && directs == DirectsOf(package, causes)
  {
    edges, directs := [], [];
    for i := 0 to |causes|
      invariant forall j | 0 <= j < i :: GoodCause(causes[j])
      invariant edges == EdgesOf(causes[..i]) && directs == DirectsOf(package, causes[..i])
    {
      assert causes[..i + 1][..i] == causes[..i];
      if !GoodCause(causes[i]) { return false, edges, directs; }
      edges, directs := edges + EdgeOf(causes[i]), directs + DirectOf(package, causes[i]);
    }
    assert causes[..|causes|] == causes;
    ok := true;
  }

  method ReadEntry(e: Entry) returns (ok: bool, edges: seq<string>, directs: seq<Direct>)
    ensures ok <==> GoodEntry(e)
    ensures ok ==> edges == EdgesOf(Causes(e.record)) && directs == DirectsOf(e.name, Causes(e.record))
  {
    if !e.record.Record? || e.record.name != Some(e.name) || e.record.via.None? { return false, [], []; }
    ok, edges, directs := ReadCauses(e.name, e.record.via.value);
  }

  /** Every entry is good, read one after the other. */
  predicate AllGood(entries: seq<Entry>) {
    entries == [] || (AllGood(entries[..|entries| - 1]) && GoodEntry(entries[|entries| - 1]))
  }

  lemma {:induction false} AllGoodIsEach(entries: seq<Entry>)
    ensures AllGood(entries) <==> forall e | e in entries :: GoodEntry(e)
  {
    if entries != [] {
      AllGoodIsEach(entries[..|entries| - 1]);
      assert entries == entries[..|entries| - 1] + [entries[|entries| - 1]];
    }
  }

  lemma {:induction false} OneBadSpoilsAll(entries: seq<Entry>, i: nat)
    requires i < |entries| && !GoodEntry(entries[i])
    ensures !AllGood(entries)
  {
    if i < |entries| - 1 { OneBadSpoilsAll(entries[..|entries| - 1], i); }
  }

  lemma EntriesSnoc(entries: seq<Entry>, i: nat)
    requires i < |entries|
    ensures AllGood(entries[..i + 1]) <==> AllGood(entries[..i]) && GoodEntry(entries[i])
    ensures Graph(entries[..i + 1]) == Graph(entries[..i])[entries[i].name := EdgesOf(Causes(entries[i].record))]
    ensures AllDirects(entries[..i + 1]) ==
      AllDirects(entries[..i]) + DirectsOf(entries[i].name, Causes(entries[i].record))
  {
    assert entries[..i + 1][..i] == entries[..i];
  }

  method ReadEntries(entries: seq<Entry>) returns (ok: bool, edges: Edges, directs: seq<Direct>)
    ensures ok <==> AllGood(entries)
    ensures ok ==> edges == Graph(entries) && directs == AllDirects(entries)
  {
    edges, directs := map[], [];
    for i := 0 to |entries|
      invariant AllGood(entries[..i])
      invariant edges == Graph(entries[..i]) && directs == AllDirects(entries[..i])
    {
      EntriesSnoc(entries, i);
      var good, itsEdges, itsDirects := ReadEntry(entries[i]);
      if !good {
        OneBadSpoilsAll(entries, i);
        return false, edges, directs;
      }
      edges, directs := edges[entries[i].name := itsEdges], directs + itsDirects;
    }
    assert entries[..|entries|] == entries;
    ok := true;
  }

  method CheckReaches(edges: Edges) returns (ok: bool)
    ensures ok <==> forall name | name in edges :: CausedByTarget(edges, name)
  {
    var left := edges.Keys;
    while left != {}
      invariant left <= edges.Keys && forall name | name in edges.Keys - left :: CausedByTarget(edges, name)
      decreases left
    {
      var name :| name in left;
      ReachesExactlyWhenCaused(edges, name);
      if !Reaches(edges, name, {}) { return false; }
      left := left - {name};
    }
    ok := true;
  }

  /** validateMobileAuditReport: true when it does not throw. */
  method ValidateMobileAuditReport(report: Report) returns (ok: bool)
    ensures ok <==> Acceptable(report)
  {
    if report.None? { return false; }
    var read, edges, directs := ReadEntries(report.value);
    AllGoodIsEach(report.value);
    if !read { return false; }
    if multiset(Ids(directs)) != multiset(EXPECTED) { return false; }
    if exists d | d in directs :: d.package != TARGET { return false; }
    if !Closed(edges) { return false; }
    ok := CheckReaches(edges);
  }

  /** What an accepted report says: the target itself is listed, and every listed package leads to it. */
  lemma AcceptedIsCausedByTarget(report: Report, e: Entry)
    requires Acceptable(report) && e in report.value
    ensures TARGET in Graph(report.value)
    ensures exists path :: Leads(Graph(report.value), path, e.name) && forall p | p in path :: p in Graph(report.value)
  {
    var edges := Graph(report.value);
    GraphHasEntries(report.value, e);
    var path :| Leads(edges, path, e.name);
    PathStaysListed(edges, path);
    assert path[|path| - 1] in path;
  }

  lemma {:induction false} GraphHasEntries(entries: seq<Entry>, e: Entry)
    requires e in entries
    ensures e.name in Graph(entries)
  {
    if e != entries[|entries| - 1] {
      GraphHasEntries(entries[..|entries| - 1], e);
    }
  }

  lemma {:induction false} PathStaysListed(edges: Edges, path: seq<string>)
    requires IsPath(edges, path) && path[0] in edges && Closed(edges)
    ensures forall p | p in path :: p in edges
    decreases |path|
  {
    if |path| > 1 {
      assert path[1] in Next(edges, path[0]);
      forall i | 0 <= i < |path[1..]| - 1 ensures path[1..][i + 1] in Next(edges, path[1..][i]) {
        assert path[i + 1 + 1] in Next(edges, path[i + 1]);
      }
      PathStaysListed(edges, path[1..]);
      assert path == [path[0]] + path[1..];
    }
  }
}
