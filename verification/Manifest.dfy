/** The manifest of a backup and the contract that its source and link metadata have to meet, with the
    exact condition under which the archive walk writes a manifest that meets it. */
module Manifest {
  import opened Common
  import opened Text
  import opened ArchiveWalk

  datatype Reference = Reference(id: string, archivePath: string)

  datatype ArchiveContract = ArchiveContract(format: string, symbolicEntries: int, hardEntries: int, recorded: int)

  datatype Manifest = Manifest(sources: seq<Reference>, contract: ArchiveContract, links: seq<LinkRecord>)

  const REDIS := "redis_snapshot"

  // ---- Paths -------------------------------------------------------------------------------------------

  /** A canonical relative path without backslashes; the path "." has no parts and passes as well. */
  predicate SafePath(s: string) {
    '\\' !in s && (s == "." || Components(Split(s, '/')))
  }

  lemma {:induction false} JoinContains(p: Path, c: char)
    requires c != '/'
    ensures c in Join(p, '/') <==> exists i :: 0 <= i < |p| && c in p[i]
  {
    if |p| > 1 {
      JoinContains(p[1..], c);
      forall i | 1 <= i < |p| && c in p[i] ensures c in Join(p, '/') {
        assert p[1..][i - 1] == p[i];
      }
      if c in Join(p[1..], '/') {
        var i :| 0 <= i < |p[1..]| && c in p[1..][i];
        assert p[i + 1] == p[1..][i];
      }
    }
  }

  /** A joined path of components is safe exactly when no component has a backslash. */
  lemma {:induction false} JoinedSafe(p: Path)
    requires p != [] && Components(p)
    ensures SafePath(Join(p, '/')) <==> '\\' !in Join(p, '/')
    ensures SafePath(Join(p, '/')) <==> forall i :: 0 <= i < |p| ==> '\\' !in p[i]
  {
    SplitJoin(p, '/');
    JoinContains(p, '\\');
  }

  /** The paths that pass: the components of a path joined by slashes, without backslashes, and ".". */
  lemma {:induction false} SafePathExact(s: string)
    ensures SafePath(s) <==>
      '\\' !in s && (s == "." || exists p: Path :: p != [] && Components(p) && s == Join(p, '/'))
  {
    JoinSplit(s, '/');
    forall p: Path | p != [] && Components(p) && s == Join(p, '/') ensures Components(Split(s, '/')) {
      SplitJoin(p, '/');
    }
  }

  // ---- The validator -----------------------------------------------------------------------------------

  function ExpectedPath(id: string): string {
    if id == REDIS then "redis/dump.rdb" else "sources/" + id
  }

  predicate InventoryValid(sources: seq<Reference>) {
    && (forall i, j :: 0 <= i < j < |sources| ==> sources[i].id != sources[j].id)
    && forall i :: 0 <= i < |sources| ==> SafePath(sources[i].archivePath)
  }

  predicate SourcesValid(sources: seq<Reference>) {
    && InventoryValid(sources)
    && forall i :: 0 <= i < |sources| ==> sources[i].archivePath == ExpectedPath(sources[i].id)
  }

  predicate ContractValid(m: Manifest) {
    m.contract == ArchiveContract("link_free_tar_v1", 0, 0, |m.links|)
  }

  function Ids(sources: seq<Reference>): set<string> {
    set s | s in sources :: s.id
  }

  predicate LinkValid(l: LinkRecord, ids: set<string>) {
    var parts := Split(l.archivePath, '/');
    && SafePath(l.archivePath) && "sources/" <= l.archivePath
    && |parts| >= 3 && parts[1] in ids && parts[1] != REDIS
    && l.text != "" && Printable(l.text)
    && l.targetSource in ids
    && (l.targetRelative == "." || SafePath(l.targetRelative))
  }

  lemma {:induction false} FirstPart(s: string)
    requires |Split(s, '/')| >= 2
    ensures "sources/" <= s <==> Split(s, '/')[0] == "sources"
  {
    JoinSplit(s, '/');
    var parts, first := Split(s, '/'), "sources";
    if "sources/" <= s {
      assert s == first + ['/'] + s[8..];
      assert '/' !in first;
      SplitOnce(first, s[8..], '/');
    }
  }

  /** The link records that pass: the archive path is a path of three or more components below a source
      other than the snapshot, and the target is a safe path below a known source. */
  lemma {:induction false} LinkValidExact(l: LinkRecord, ids: set<string>)
    ensures LinkValid(l, ids) <==>
      && (exists p: Path :: |p| >= 3 && Components(p) && l.archivePath == Join(p, '/') &&
            p[0] == "sources" && p[1] in ids && p[1] != "redis_snapshot")
      && '\\' !in l.archivePath
      && l.text != "" && Printable(l.text)
      && l.targetSource in ids && SafePath(l.targetRelative)
  {
    var parts := Split(l.archivePath, '/');
    JoinSplit(l.archivePath, '/');
    if |parts| >= 2 {
      FirstPart(l.archivePath);
    }
    forall p: Path | |p| >= 3 && Components(p) && l.archivePath == Join(p, '/') ensures p == parts {
      SplitJoin(p, '/');
    }
    SafePathDot();
  }

  lemma {:induction false} SafePathDot()
    ensures SafePath(".") && |Split(".", '/')| == 1
  {
    SplitNone(".", '/');
  }

  predicate LinksValid(links: seq<LinkRecord>, ids: set<string>) {
    && UniquePaths(links)
    && forall i :: 0 <= i < |links| ==> LinkValid(links[i], ids)
  }

  predicate Valid(m: Manifest) {
    SourcesValid(m.sources) && ContractValid(m) && LinksValid(m.links, Ids(m.sources))
  }

  /** The inventory pass, with the identifiers it has collected. */
  method CollectIds(sources: seq<Reference>) returns (ok: bool, ids: set<string>)
    ensures ok <==> InventoryValid(sources)
    ensures ok ==> ids == Ids(sources)
  {
    ids := {};
    for i := 0 to |sources|
      invariant ids == Ids(sources[..i])
      invariant InventoryValid(sources[..i])
    {
      var s := sources[i];
      assert sources[..i + 1] == sources[..i] + [s];
      assert forall a :: 0 <= a < i ==> sources[a] in sources[..i];
      if s.id in ids {
        ghost var earlier :| earlier in sources[..i] && earlier.id == s.id;
        return false, ids;
      }
      if !SafePath(s.archivePath) {
        return false, ids;
      }
      ids := ids + {s.id};
    }
    assert sources[..|sources|] == sources;
    ok := true;
  }

  method ValidateSources(sources: seq<Reference>) returns (ok: bool, ids: set<string>)
    ensures ok <==> SourcesValid(sources)
    ensures ok ==> ids == Ids(sources)
  {
    ok, ids := CollectIds(sources);
    if ok {
      for i := 0 to |sources|
        invariant forall a :: 0 <= a < i ==> sources[a].archivePath == ExpectedPath(sources[a].id)
      {
        if sources[i].archivePath != ExpectedPath(sources[i].id) {
          return false, ids;
        }
      }
    }
  }

  function ArchivePaths(links: seq<LinkRecord>): set<string> {
    set l | l in links :: l.archivePath
  }

  lemma {:induction false} LinksValidAppend(links: seq<LinkRecord>, l: LinkRecord, ids: set<string>)
    ensures LinksValid(links + [l], ids) <==>
            LinksValid(links, ids) && LinkValid(l, ids) && l.archivePath !in ArchivePaths(links)
  {
    var all := links + [l];
    assert all[|links|] == l;
    if LinksValid(all, ids) {
      forall i | 0 <= i < |links| ensures LinkValid(links[i], ids) && links[i].archivePath != l.archivePath {
        assert all[i] == links[i];
      }
      forall i, j | 0 <= i < j < |links| ensures links[i].archivePath != links[j].archivePath {
        assert all[i] == links[i] && all[j] == links[j];
      }
    } else if l.archivePath !in ArchivePaths(links) {
      assert forall i :: 0 <= i < |links| ==> links[i] in links && all[i] == links[i];
    }
  }

  lemma {:induction false} LinksValidPrefix(links: seq<LinkRecord>, k: nat, ids: set<string>)
    requires k <= |links|
    ensures LinksValid(links, ids) ==> LinksValid(links[..k], ids)
  {
  }

  method ValidateLinks(links: seq<LinkRecord>, ids: set<string>) returns (ok: bool)
    ensures ok <==> LinksValid(links, ids)
  {
    var seen := {};
    for i := 0 to |links|
      invariant seen == ArchivePaths(links[..i])
      invariant LinksValid(links[..i], ids)
    {
      var l := links[i];
      assert links[..i + 1] == links[..i] + [l];
      LinksValidAppend(links[..i], l, ids);
      LinksValidPrefix(links, i + 1, ids);
      if !LinkValid(l, ids) || l.archivePath in seen {
        return false;
      }
      seen := seen + {l.archivePath};
    }
    assert links[..|links|] == links;
    return true;
  }

  method ValidateManifestLinkContract(m: Manifest) returns (ok: bool)
    ensures ok <==> Valid(m)
  {
    var sourcesOk, ids := ValidateSources(m.sources);
    if !sourcesOk || !ContractValid(m) {
      return false;
    }
    ok := ValidateLinks(m.links, ids);
  }

  // ---- What the archive walk writes ------------------------------------------------------------------------

  /** The references in archive order: the snapshot, then every source. */
  function References(sources: seq<Source>): (refs: seq<Reference>)
    ensures |refs| == |sources| + 1
  {
    [Reference(REDIS, "redis/dump.rdb")]
    + seq(|sources|, i requires 0 <= i < |sources| => Reference(sources[i].id, "sources/" + sources[i].id))
  }

  function ManifestOf(sources: seq<Source>, links: seq<LinkRecord>): Manifest {
    Manifest(References(sources), ArchiveContract("link_free_tar_v1", 0, 0, |links|), links)
  }

  /** Every node the walk lists satisfies what the operating system guarantees of it. */
  predicate AllWellFormed(items: seq<Item>) {
    forall i :: 0 <= i < |items| ==> WellFormedNode(items[i].node)
  }

  lemma {:induction false} ItemsWellFormed(at: Path, cs: seq<Child>)
    requires WellFormed(cs)
    ensures AllWellFormed(Items(at, cs))
    decreases cs
  {
    if cs != [] {
      ChildWellFormed(at, cs[0]);
      ItemsWellFormed(at, cs[1..]);
    }
  }

  lemma {:induction false} ChildWellFormed(at: Path, c: Child)
    requires WellFormedNode(c.node)
    ensures AllWellFormed(ChildItems(at, c))
    decreases c
  {
    if c.node.DirNode? {
      ItemsWellFormed(at + [c.name], c.node.children);
    }
  }

  lemma {:induction false} TopLevelDirectory(cs: seq<Child>, name: string)
    requires forall c :: c in cs ==> c.node.DirNode?
    ensures Lookup(cs, [name]).Some? ==> Lookup(cs, [name]).value.DirNode?
  {
    if cs != [] {
      assert cs[0] in cs;
      TopLevelDirectory(cs[1..], name);
    }
  }

  /** The link items of an archive lie strictly below a source. */
  lemma {:induction false} LinkItemPath(sources: seq<Source>, item: Item)
    requires Declared(sources) && item in ArchiveItems(sources) && item.node.LinkNode?
    ensures |item.path| >= 3 && Components(item.path) && item.path[0] == SOURCES
    ensures exists s :: s in sources && s.id == item.path[1]
    ensures WellFormedNode(item.node)
  {
    var cs := Roots(sources);
    RootsWellFormed(sources);
    ArchiveShape(sources);
    ItemsThrough([SOURCES], cs);
    ItemsWellFormed([SOURCES], cs);
    var k :| 0 <= k < |ArchiveItems(sources)| && ArchiveItems(sources)[k] == item;
    assert item.path[..1] == [SOURCES] && item.path[1] in Names(cs);
    RootNames(sources, item.path[1]);
    if |item.path| == 2 {
      assert item.path == [SOURCES] + [item.path[1]];
      ItemsExact([SOURCES], cs, [item.path[1]], item.node);
      TopLevelDirectory(cs, item.path[1]);
      assert false;
    }
  }

  lemma {:induction false} RootNames(sources: seq<Source>, name: string)
    requires name in Names(Roots(sources))
    ensures exists s :: s in sources && s.id == name
  {
  }

  lemma {:induction false} IdsOfReferences(sources: seq<Source>, id: string)
    ensures id in Ids(References(sources)) <==> id == REDIS || exists s :: s in sources && s.id == id
  {
    var refs := References(sources);
    assert refs[0] in refs;
    forall s | s in sources && s.id == id ensures id in Ids(refs) {
      var i :| 0 <= i < |sources| && sources[i] == s;
      assert refs[i + 1] in refs && refs[i + 1].id == id;
    }
    if id in Ids(refs) && id != REDIS {
      var r :| r in refs && r.id == id;
      var i :| 0 <= i < |refs| && refs[i] == r;
      assert sources[i - 1] in sources && sources[i - 1].id == id;
    }
  }

  lemma {:induction false} ReferencesValid(sources: seq<Source>)
    requires Declared(sources)
    ensures SourcesValid(References(sources)) <==> forall s :: s in sources ==> s.id != REDIS
  {
    var refs := References(sources);
    if s :| s in sources && s.id == REDIS {
      var i :| 0 <= i < |sources| && sources[i] == s;
      assert refs[i + 1].id == refs[0].id;
    } else {
      assert forall i :: 0 <= i < |sources| ==> sources[i] in sources;
      forall i | 0 <= i < |refs|
        ensures SafePath(refs[i].archivePath) && refs[i].archivePath == ExpectedPath(refs[i].id)
      {
        if i == 0 {
          SnapshotPathSafe();
        } else {
          SourcePathSafe(sources[i - 1].id);
        }
      }
    }
  }

  lemma {:induction false} SafeTwo(a: string, b: string)
    requires Component(a) && Component(b) && '\\' !in a && '\\' !in b
    ensures SafePath(a + "/" + b)
  {
    assert [a, b][1..] == [b];
    assert Join([a, b], '/') == a + "/" + b;
    JoinedSafe([a, b]);
  }

  lemma {:induction false} SnapshotPathSafe()
    ensures SafePath("redis/dump.rdb")
  {
    var a, b := "redis", "dump.rdb";
    assert a[0] == 'r' && b[0] == 'd';
    assert a + "/" + b == "redis/dump.rdb";
    SafeTwo(a, b);
  }

  lemma {:induction false} SourcePathSafe(id: string)
    requires SourceId(id)
    ensures SafePath("sources/" + id)
  {
    assert SOURCES[0] == 's';
    assert "sources/" + id == SOURCES + "/" + id;
    SourceIdComponent(id);
    SafeTwo(SOURCES, id);
  }

  predicate NoBackslash(l: LinkRecord) {
    '\\' !in l.archivePath && '\\' !in l.targetRelative
  }

  /** One record of the walk passes exactly when its paths have no backslash, provided no source takes
      the identifier of the snapshot. */
  lemma {:induction false} RecordValid(sources: seq<Source>, item: Item)
    requires Declared(sources) && item in ArchiveItems(sources)
    requires item.node.LinkNode? && LinkOk(item.node.link, sources)
    requires forall s :: s in sources ==> s.id != REDIS
    ensures var l := RecordOf(Join(item.path, '/'), item.node.link, sources);
      LinkValid(l, Ids(References(sources))) <==> NoBackslash(l)
  {
    var l := RecordOf(Join(item.path, '/'), item.node.link, sources);
    LinkItemPath(sources, item);
    SplitJoin(item.path, '/');
    JoinedSafe(item.path);
    IdsOfReferences(sources, item.path[1]);
    IdsOfReferences(sources, l.targetSource);
    var target := item.node.link.target.value.path;
    DeepestIsDeepest(sources, target);
    assert "sources/" <= l.archivePath by {
      assert Join(item.path, '/') == SOURCES + "/" + Join(item.path[1..], '/');
    }
    var root := Deepest(sources, target).value.root;
    if |target| > |root| {
      JoinedSafe(target[|root|..]);
    }
  }

  /** For every declared set of sources, and the link metadata in any order: the manifest
      passes the validator exactly when no source is named like the snapshot and no recorded path has
      a backslash. */
  lemma {:induction false} WalkedManifestValid(sources: seq<Source>, links: seq<LinkRecord>)
    requires Declared(sources)
    requires multiset(links) == multiset(LinkRecords(ArchiveItems(sources), sources))
    ensures Valid(ManifestOf(sources, links)) <==>
            && (forall s :: s in sources ==> s.id != REDIS)
            && (forall l :: l in links ==> NoBackslash(l))
  {
    ReferencesValid(sources);
    if forall s :: s in sources ==> s.id != REDIS {
      var items := ArchiveItems(sources);
      var records := LinkRecords(items, sources);
      ArchiveShape(sources);
      LinkRecordsUnique(items, sources);
      UniqueReordered(records, links);
      forall l | l in links ensures LinkValid(l, Ids(References(sources))) <==> NoBackslash(l) {
        assert l in multiset(links) && l in records;
        LinkRecordsMember(items, sources, l);
        var k :| 0 <= k < |items| && IsRecord(items[k], sources, l);
        RecordValid(sources, items[k]);
      }
      assert forall i :: 0 <= i < |links| ==> links[i] in links;
    }
  }

  lemma {:induction false} UniqueReordered(a: seq<LinkRecord>, b: seq<LinkRecord>)
    requires UniquePaths(a) && multiset(a) == multiset(b)
    ensures UniquePaths(b)
  {
    forall i, j | 0 <= i < j < |b| ensures b[i].archivePath != b[j].archivePath {
      if b[i] == b[j] {
        assert b == b[..j] + [b[j]] + b[j + 1..] && b[i] in b[..j];
        assert multiset(b)[b[i]] >= 2;
        AtMostOnce(a, b[i]);
      } else {
        assert b[i] in multiset(b) && b[j] in multiset(b);
        assert b[i] in a && b[j] in a;
      }
    }
  }

  lemma {:induction false} AtMostOnce(a: seq<LinkRecord>, x: LinkRecord)
    requires UniquePaths(a)
    ensures multiset(a)[x] <= 1
  {
    if a != [] {
      AtMostOnce(a[1..], x);
      assert a == [a[0]] + a[1..];
      if x == a[0] {
        assert x !in a[1..];
      }
    }
  }
}
