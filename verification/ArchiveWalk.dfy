/** The archive walk of a backup: which files and directories of the declared sources become archive
    entries, and which links become metadata. */
module ArchiveWalk {
  import opened Common
  import opened Text

  /** A path as its components. */
  type Path = seq<string>

  datatype TargetKind = TargetFile | TargetDirectory

  /** A resolved link target; the kind is None for anything that is neither file nor directory. */
  datatype Target = Target(path: Path, kind: Option<TargetKind>)

  /** A symbolic link: its text, and what it resolves to, or None when it is broken. */
  datatype Link = Link(text: string, target: Option<Target>)

  /** Directories list their children in the order of their names. */
  datatype Node = FileNode | DirNode(children: seq<Child>) | LinkNode(link: Link) | SpecialNode

  datatype Child = Child(name: string, node: Node)

  datatype Source = Source(id: string, root: Path, children: seq<Child>)

  // ---- Names and trees as the operating system has them ----------------------------------------------

  predicate Component(s: string) {
    s != "" && s != "." && s != ".." && '/' !in s
  }

  predicate Components(p: Path) {
    forall i :: 0 <= i < |p| ==> Component(p[i])
  }

  predicate WellFormed(cs: seq<Child>) {
    && (forall i, j :: 0 <= i < j < |cs| ==> cs[i].name != cs[j].name)
    && forall i :: 0 <= i < |cs| ==> Component(cs[i].name) && WellFormedNode(cs[i].node)
  }

  predicate WellFormedNode(n: Node) {
    match n
    case DirNode(cs) => WellFormed(cs)
    case LinkNode(l) => l.target.Some? ==> Components(l.target.value.path)
    case _ => true
  }

  // ---- Links -----------------------------------------------------------------------------------------

  predicate Printable(s: string) {
    forall i :: 0 <= i < |s| ==> s[i] as int >= 32
  }

  /** The first of the deepest declared roots that contain the target. */
  function Deepest(sources: seq<Source>, target: Path): Option<Source> {
    if sources == [] then None
    else
      var before, last := Deepest(sources[..|sources| - 1], target), sources[|sources| - 1];
      if last.root <= target && (before.None? || |last.root| > |before.value.root|) then Some(last) else before
  }

  /** The chosen root contains the target, and no declared root that contains it is deeper; there is a
      choice whenever some root contains the target. */
  lemma {:induction false} DeepestIsDeepest(sources: seq<Source>, target: Path)
    ensures var r := Deepest(sources, target);
      && (r.Some? ==> r.value in sources && r.value.root <= target)
      && (forall s :: s in sources && s.root <= target ==> r.Some? && |s.root| <= |r.value.root|)
  {
    if sources != [] {
      var before := sources[..|sources| - 1];
      DeepestIsDeepest(before, target);
      assert sources == before + [sources[|sources| - 1]];
    }
  }

  method SourceRelativeTarget(target: Path, sources: seq<Source>) returns (r: Option<(string, string)>)
    ensures r.Some? <==> exists s :: s in sources && s.root <= target
    ensures r == match Deepest(sources, target) case None => None case Some(s) => Some((s.id, Relative(s.root, target)))
  {
    var best: Option<Source> := None;
    for i := 0 to |sources|
      invariant best == Deepest(sources[..i], target)
    {
      assert sources[..i + 1][..i] == sources[..i];
      var s := sources[i];
      if s.root <= target && (best.None? || |s.root| > |best.value.root|) {
        best := Some(s);
      }
    }
    assert sources[..|sources|] == sources;
    DeepestIsDeepest(sources, target);
    match best
    case None => r := None;
    case Some(s) => r := Some((s.id, Relative(s.root, target)));
  }

  /** The path of the target below the root, or "." for the root itself. */
  function Relative(root: Path, target: Path): string {
    if |target| <= |root| then "." else Join(target[|root|..], '/')
  }

  predicate LinkOk(l: Link, sources: seq<Source>) {
    && l.text != "" && Printable(l.text)
    && l.target.Some? && l.target.value.kind.Some? && Deepest(sources, l.target.value.path).Some?
  }

  datatype LinkRecord = LinkRecord(archivePath: string, text: string, targetSource: string, targetRelative: string,
                                   targetKind: TargetKind)

  function RecordOf(archivePath: string, l: Link, sources: seq<Source>): LinkRecord
    requires LinkOk(l, sources)
  {
    var t := l.target.value;
    var s := Deepest(sources, t.path).value;
    LinkRecord(archivePath, l.text, s.id, Relative(s.root, t.path), t.kind.value)
  }

  /** What a record says about its link: the archive path, text and kind are the link's, and the target is
      found again below the deepest declared root that contains it. */
  lemma {:induction false} RecordMeaning(archivePath: string, l: Link, sources: seq<Source>)
    requires LinkOk(l, sources) && Components(l.target.value.path)
    ensures var r, t := RecordOf(archivePath, l, sources), l.target.value;
      && r.archivePath == archivePath && r.text == l.text && Some(r.targetKind) == t.kind
      && exists s :: s in sources && s.id == r.targetSource &&
           t.path == s.root + (if r.targetRelative == "." then [] else Split(r.targetRelative, '/')) &&
           forall other :: other in sources && other.root <= t.path ==> |other.root| <= |s.root|
  {
    var t := l.target.value;
    DeepestIsDeepest(sources, t.path);
    var s := Deepest(sources, t.path).value;
    if |t.path| > |s.root| {
      var below := t.path[|s.root|..];
      assert t.path == s.root + below && Component(below[0]);
      SplitJoin(below, '/');
      SplitNone(".", '/');
    }
  }

  // ---- The walk ----------------------------------------------------------------------------------------

  predicate Walkable(cs: seq<Child>, sources: seq<Source>) {
    forall i :: 0 <= i < |cs| ==> Printable(cs[i].name) && WalkableNode(cs[i].node, sources)
  }

  predicate WalkableNode(n: Node, sources: seq<Source>) {
    match n
    case FileNode => true
    case DirNode(cs) => Walkable(cs, sources)
    case LinkNode(l) => LinkOk(l, sources)
    case SpecialNode => false
  }

  /** An archive path with what is found there. */
  datatype Item = Item(path: Path, node: Node)

  /** One child and everything below it, depth first. */
  function ChildItems(at: Path, c: Child): seq<Item>
    decreases c
  {
    [Item(at + [c.name], c.node)] + if c.node.DirNode? then Items(at + [c.name], c.node.children) else []
  }

  /** Everything below a directory, depth first. */
  function Items(at: Path, cs: seq<Child>): seq<Item>
    decreases cs
  {
    if cs == [] then [] else ChildItems(at, cs[0]) + Items(at, cs[1..])
  }

  /** Files and directories become archive entries. */
  function EntryPaths(items: seq<Item>): seq<string> {
    if items == [] then []
    else (if IsEntry(items[0].node) then [Join(items[0].path, '/')] else []) + EntryPaths(items[1..])
  }

  /** Links become metadata. */
  function LinkRecords(items: seq<Item>, sources: seq<Source>): seq<LinkRecord> {
    if items == [] then []
    else
      var n := items[0].node;
      (if n.LinkNode? && LinkOk(n.link, sources) then [RecordOf(Join(items[0].path, '/'), n.link, sources)] else [])
      + LinkRecords(items[1..], sources)
  }

  lemma {:induction false} EntryPathsConcat(a: seq<Item>, b: seq<Item>)
    ensures EntryPaths(a + b) == EntryPaths(a) + EntryPaths(b)
  {
    if a == [] {
      assert a + b == b;
    } else {
      assert (a + b)[1..] == a[1..] + b;
      EntryPathsConcat(a[1..], b);
    }
  }

  lemma {:induction false} LinkRecordsConcat(a: seq<Item>, b: seq<Item>, sources: seq<Source>)
    ensures LinkRecords(a + b, sources) == LinkRecords(a, sources) + LinkRecords(b, sources)
  {
    if a == [] {
      assert a + b == b;
    } else {
      assert (a + b)[1..] == a[1..] + b && (a + b)[0] == a[0];
      LinkRecordsConcat(a[1..], b, sources);
    }
  }

  lemma {:induction false} ItemsAppend(at: Path, cs: seq<Child>, c: Child)
    ensures Items(at, cs + [c]) == Items(at, cs) + ChildItems(at, c)
    decreases cs
  {
    if cs == [] {
      assert cs + [c] == [c] && [c][1..] == [];
    } else {
      assert (cs + [c])[1..] == cs[1..] + [c];
      ItemsAppend(at, cs[1..], c);
    }
  }

  lemma {:induction false} JoinAppend(p: Path, name: string)
    requires p != []
    ensures Join(p + [name], '/') == Join(p, '/') + "/" + name
  {
    if |p| == 1 {
      assert (p + [name])[1..] == [name];
    } else {
      assert (p + [name])[1..] == p[1..] + [name];
      JoinAppend(p[1..], name);
    }
  }

  /** What a walk has collected so far. */
  datatype Collected = Collected(entries: seq<string>, links: seq<LinkRecord>)

  function Collect(items: seq<Item>, sources: seq<Source>): Collected {
    Collected(EntryPaths(items), LinkRecords(items, sources))
  }

  function Append(a: Collected, b: Collected): Collected {
    Collected(a.entries + b.entries, a.links + b.links)
  }

  lemma {:induction false} CollectConcat(a: seq<Item>, b: seq<Item>, sources: seq<Source>)
    ensures Collect(a + b, sources) == Append(Collect(a, sources), Collect(b, sources))
  {
    EntryPathsConcat(a, b);
    LinkRecordsConcat(a, b, sources);
  }

  lemma {:induction false} CollectOne(item: Item, sources: seq<Source>)
    ensures Collect([item], sources) == Collected(
      if item.node.FileNode? || item.node.DirNode? then [Join(item.path, '/')] else [],
      if item.node.LinkNode? && LinkOk(item.node.link, sources)
      then [RecordOf(Join(item.path, '/'), item.node.link, sources)] else [])
  {
    assert [item][1..] == [];
    assert EntryPaths([item][1..]) == [] && LinkRecords([item][1..], sources) == [];
  }

  /** Visit a directory: None when a name, a link or a type below it is not acceptable. */
  method Visit(directory: string, cs: seq<Child>, sources: seq<Source>, ghost at: Path) returns (r: Option<Collected>)
    requires at != [] && directory == Join(at, '/')
    ensures r.Some? <==> Walkable(cs, sources)
    ensures r.Some? ==> r.value == Collect(Items(at, cs), sources)
    decreases cs
  {
    var all := Collected([], []);
    assert Items(at, cs[..0]) == [];
    for i := 0 to |cs|
      invariant Walkable(cs[..i], sources)
      invariant all == Collect(Items(at, cs[..i]), sources)
    {
      var c := cs[i];
      assert c in cs && cs[..i + 1] == cs[..i] + [c];
      if !Printable(c.name) {
        return None;
      }
      JoinAppend(at, c.name);
      var below := VisitChild(directory + "/" + c.name, c, sources, at);
      if below.None? {
        return None;
      }
      ItemsAppend(at, cs[..i], c);
      CollectConcat(Items(at, cs[..i]), ChildItems(at, c), sources);
      all := Append(all, below.value);
    }
    assert cs[..|cs|] == cs;
    return Some(all);
  }

  method VisitChild(path: string, c: Child, sources: seq<Source>, ghost at: Path) returns (r: Option<Collected>)
    requires path == Join(at + [c.name], '/')
    ensures r.Some? <==> WalkableNode(c.node, sources)
    ensures r.Some? ==> r.value == Collect(ChildItems(at, c), sources)
    decreases c
  {
    ghost var here := at + [c.name];
    CollectOne(Item(here, c.node), sources);
    assert [Item(here, c.node)] + [] == [Item(here, c.node)];
    match c.node {
      case LinkNode(l) =>
        if !LinkOk(l, sources) {
          return None;
        }
        return Some(Collected([], [RecordOf(path, l, sources)]));
      case DirNode(children) =>
        var below := Visit(path, children, sources, here);
        if below.None? {
          return None;
        }
        CollectConcat([Item(here, c.node)], Items(here, children), sources);
        return Some(Append(Collected([path], []), below.value));
      case FileNode =>
        return Some(Collected([path], []));
      case SpecialNode =>
        return None;
    }
  }

  // ---- Exactness ---------------------------------------------------------------------------------------

  /** Where a path leads in a tree. */
  function Lookup(cs: seq<Child>, p: Path): Option<Node>
    requires p != []
    decreases p, |cs|
  {
    if cs == [] then None
    else if cs[0].name == p[0] then
      if |p| == 1 then Some(cs[0].node)
      else if cs[0].node.DirNode? then Lookup(cs[0].node.children, p[1..]) else None
    else Lookup(cs[1..], p)
  }

  predicate AllThrough(at: Path, names: set<string>, items: seq<Item>) {
    forall i :: 0 <= i < |items| ==>
      |at| < |items[i].path| && items[i].path[..|at|] == at && items[i].path[|at|] in names
  }

  function Names(cs: seq<Child>): set<string> {
    set c | c in cs :: c.name
  }

  lemma {:induction false} ThroughDeeper(at: Path, name: string, names: set<string>, items: seq<Item>)
    requires AllThrough(at + [name], names, items)
    ensures AllThrough(at, {name}, items)
  {
  }

  lemma {:induction false} ChildThrough(at: Path, c: Child)
    ensures AllThrough(at, {c.name}, ChildItems(at, c))
    decreases c
  {
    var here := at + [c.name];
    assert here[..|at|] == at;
    if c.node.DirNode? {
      ItemsThrough(here, c.node.children);
      ThroughDeeper(at, c.name, Names(c.node.children), Items(here, c.node.children));
    }
  }

  lemma {:induction false} ItemsThrough(at: Path, cs: seq<Child>)
    ensures AllThrough(at, Names(cs), Items(at, cs))
    decreases cs
  {
    if cs != [] {
      ChildThrough(at, cs[0]);
      ItemsThrough(at, cs[1..]);
      assert cs[0].name in Names(cs);
      assert Names(cs[1..]) <= Names(cs);
    }
  }

  /** Paths occur at most once. */
  predicate Distinct(items: seq<Item>) {
    forall i, j :: 0 <= i < j < |items| ==> items[i].path != items[j].path
  }

  lemma {:induction false} DistinctConcat(at: Path, a: seq<Item>, b: seq<Item>, names: set<string>, others: set<string>)
    requires Distinct(a) && Distinct(b) && AllThrough(at, names, a) && AllThrough(at, others, b) && names !! others
    ensures Distinct(a + b)
  {
  }

  lemma {:induction false} ChildDistinct(at: Path, c: Child)
    requires WellFormedNode(c.node)
    ensures Distinct(ChildItems(at, c))
    decreases c
  {
    if c.node.DirNode? {
      var here := at + [c.name];
      ItemsDistinct(here, c.node.children);
      ItemsThrough(here, c.node.children);
    }
  }

  lemma {:induction false} ItemsDistinct(at: Path, cs: seq<Child>)
    requires WellFormed(cs)
    ensures Distinct(Items(at, cs))
    decreases cs
  {
    if cs != [] {
      ChildDistinct(at, cs[0]);
      ItemsDistinct(at, cs[1..]);
      ChildThrough(at, cs[0]);
      ItemsThrough(at, cs[1..]);
      assert {cs[0].name} !! Names(cs[1..]);
      DistinctConcat(at, ChildItems(at, cs[0]), Items(at, cs[1..]), {cs[0].name}, Names(cs[1..]));
    }
  }

  /** A node is listed under a path exactly when the path leads to it. */
  lemma {:induction false} ItemsExact(at: Path, cs: seq<Child>, p: Path, n: Node)
    requires WellFormed(cs) && p != []
    ensures Item(at + p, n) in Items(at, cs) <==> Lookup(cs, p) == Some(n)
    decreases cs
  {
    if cs != [] {
      var e := Item(at + p, n);
      ChildThrough(at, cs[0]);
      ItemsThrough(at, cs[1..]);
      assert e.path[|at|] == p[0];
      assert e in Items(at, cs) <==> e in ChildItems(at, cs[0]) || e in Items(at, cs[1..]);
      if p[0] == cs[0].name {
        assert e !in Items(at, cs[1..]);
        ChildExact(at, cs[0], p, n);
      } else {
        assert e !in ChildItems(at, cs[0]);
        ItemsExact(at, cs[1..], p, n);
      }
    }
  }

  lemma {:induction false} ChildExact(at: Path, c: Child, p: Path, n: Node)
    requires WellFormedNode(c.node) && p != [] && p[0] == c.name
    ensures Item(at + p, n) in ChildItems(at, c) <==> Lookup([c], p) == Some(n)
    decreases c
  {
    var here := at + [c.name];
    if |p| == 1 {
      assert at + p == here;
      if c.node.DirNode? {
        ItemsThrough(here, c.node.children);
      }
    } else {
      assert at + p == here + p[1..] && here != at + p;
      if c.node.DirNode? {
        ItemsExact(here, c.node.children, p[1..], n);
      }
    }
  }

  // ---- The archive as a whole --------------------------------------------------------------------------

  predicate SourceId(id: string) {
    && 1 <= |id| <= 64 && 'a' <= id[0] <= 'z'
    && forall i :: 1 <= i < |id| ==> 'a' <= id[i] <= 'z' || '0' <= id[i] <= '9' || id[i] == '_'
  }

  lemma {:induction false} SourceIdComponent(id: string)
    requires SourceId(id)
    ensures Component(id) && '\\' !in id
  {
  }

  /** What the policy guarantees about its sources, and the operating system about their trees. */
  predicate Declared(sources: seq<Source>) {
    && (forall i, j :: 0 <= i < j < |sources| ==> sources[i].id != sources[j].id)
    && forall i :: 0 <= i < |sources| ==> SourceId(sources[i].id) && WellFormed(sources[i].children)
  }

  /** The sources as the children of one directory. */
  function Roots(sources: seq<Source>): (cs: seq<Child>)
    ensures |cs| == |sources|
  {
    seq(|sources|, i requires 0 <= i < |sources| => Child(sources[i].id, DirNode(sources[i].children)))
  }

  const SOURCES := "sources"

  function ArchiveItems(sources: seq<Source>): seq<Item> {
    Items([SOURCES], Roots(sources))
  }

  lemma {:induction false} RootsWellFormed(sources: seq<Source>)
    requires Declared(sources)
    ensures WellFormed(Roots(sources))
  {
  }

  predicate AllWalkable(sources: seq<Source>) {
    forall i :: 0 <= i < |sources| ==> Walkable(sources[i].children, sources)
  }

  /** Walk every source; None when one of them is not acceptable. */
  method BuildArchive(sources: seq<Source>) returns (r: Option<Collected>)
    ensures r.Some? <==> AllWalkable(sources)
    ensures r.Some? ==> r.value == Append(Collected(["redis/dump.rdb"], []), Collect(ArchiveItems(sources), sources))
  {
    var all := Collected([], []);
    ghost var cs := Roots(sources);
    assert Items([SOURCES], cs[..0]) == [];
    for k := 0 to |sources|
      invariant forall i :: 0 <= i < k ==> Walkable(sources[i].children, sources)
      invariant all == Collect(Items([SOURCES], cs[..k]), sources)
    {
      var c := Child(sources[k].id, DirNode(sources[k].children));
      assert cs[..k + 1] == cs[..k] + [c];
      JoinAppend([SOURCES], c.name);
      var below := VisitChild(SOURCES + "/" + c.name, c, sources, [SOURCES]);
      if below.None? {
        return None;
      }
      ItemsAppend([SOURCES], cs[..k], c);
      CollectConcat(Items([SOURCES], cs[..k]), ChildItems([SOURCES], c), sources);
      all := Append(all, below.value);
    }
    assert cs[..|sources|] == cs;
    return Some(Append(Collected(["redis/dump.rdb"], []), all));
  }

  // ---- Every entry and every link exactly once -----------------------------------------------------------

  predicate ComponentPaths(items: seq<Item>) {
    forall i :: 0 <= i < |items| ==> items[i].path != [] && Components(items[i].path)
  }

  lemma {:induction false} ItemsComponents(at: Path, cs: seq<Child>)
    requires Components(at) && WellFormed(cs)
    ensures ComponentPaths(Items(at, cs))
    decreases cs
  {
    if cs != [] {
      ChildComponents(at, cs[0]);
      ItemsComponents(at, cs[1..]);
    }
  }

  lemma {:induction false} ChildComponents(at: Path, c: Child)
    requires Components(at) && Component(c.name) && WellFormedNode(c.node)
    ensures ComponentPaths(ChildItems(at, c))
    decreases c
  {
    if c.node.DirNode? {
      ItemsComponents(at + [c.name], c.node.children);
    }
  }

  lemma {:induction false} JoinInjective(p: Path, q: Path)
    requires p != [] && q != [] && Components(p) && Components(q)
    ensures Join(p, '/') == Join(q, '/') ==> p == q
  {
    SplitJoin(p, '/');
    SplitJoin(q, '/');
  }

  predicate IsEntry(n: Node) { n.FileNode? || n.DirNode? }

  predicate EntryAt(items: seq<Item>, k: int, s: string) {
    0 <= k < |items| && IsEntry(items[k].node) && Join(items[k].path, '/') == s
  }

  lemma {:induction false} EntryPathsMember(items: seq<Item>, s: string)
    ensures s in EntryPaths(items) <==> exists k :: EntryAt(items, k, s)
  {
    if items != [] {
      var rest := items[1..];
      EntryPathsMember(rest, s);
      assert s in EntryPaths(items) <==> EntryAt(items, 0, s) || s in EntryPaths(rest);
      forall k | EntryAt(rest, k, s) ensures EntryAt(items, k + 1, s) {
      }
      forall k | k != 0 && EntryAt(items, k, s) ensures EntryAt(rest, k - 1, s) {
      }
    }
  }

  predicate Unique<T(==)>(s: seq<T>) {
    forall i, j :: 0 <= i < j < |s| ==> s[i] != s[j]
  }

  lemma {:induction false} EntryPathsUnique(items: seq<Item>)
    requires Distinct(items) && ComponentPaths(items)
    ensures Unique(EntryPaths(items))
  {
    if items != [] {
      var rest := items[1..];
      EntryPathsUnique(rest);
      if IsEntry(items[0].node) {
        var s := Join(items[0].path, '/');
        EntryPathsMember(rest, s);
        forall k | 0 <= k < |rest| ensures Join(rest[k].path, '/') != s {
          assert rest[k] == items[k + 1];
          JoinInjective(rest[k].path, items[0].path);
        }
      }
    }
  }

  /** Link metadata of a list of items, one by one. */
  lemma {:induction false} LinkRecordsMember(items: seq<Item>, sources: seq<Source>, r: LinkRecord)
    ensures r in LinkRecords(items, sources) <==>
            exists k :: 0 <= k < |items| && IsRecord(items[k], sources, r)
  {
    if items != [] {
      LinkRecordsMember(items[1..], sources, r);
      if r in LinkRecords(items[1..], sources) {
        var k :| 0 <= k < |items[1..]| && IsRecord(items[1..][k], sources, r);
        assert items[k + 1] == items[1..][k];
      }
      forall k | 1 <= k < |items| && IsRecord(items[k], sources, r) ensures r in LinkRecords(items[1..], sources) {
        assert items[1..][k - 1] == items[k];
      }
    }
  }

  predicate IsRecord(item: Item, sources: seq<Source>, r: LinkRecord) {
    && item.node.LinkNode? && LinkOk(item.node.link, sources)
    && r == RecordOf(Join(item.path, '/'), item.node.link, sources)
  }

  predicate UniquePaths(rs: seq<LinkRecord>) {
    forall i, j :: 0 <= i < j < |rs| ==> rs[i].archivePath != rs[j].archivePath
  }

  lemma {:induction false} LinkRecordsUnique(items: seq<Item>, sources: seq<Source>)
    requires Distinct(items) && ComponentPaths(items)
    ensures UniquePaths(LinkRecords(items, sources))
  {
    if items != [] {
      var rest, records := items[1..], LinkRecords(items[1..], sources);
      LinkRecordsUnique(rest, sources);
      forall j | 0 <= j < |records| ensures records[j].archivePath != Join(items[0].path, '/') {
        LinkRecordsMember(rest, sources, records[j]);
        var k :| 0 <= k < |rest| && IsRecord(rest[k], sources, records[j]);
        assert rest[k] == items[k + 1];
        JoinInjective(rest[k].path, items[0].path);
      }
    }
  }

  lemma {:induction false} ArchiveShape(sources: seq<Source>)
    requires Declared(sources)
    ensures Distinct(ArchiveItems(sources)) && ComponentPaths(ArchiveItems(sources))
  {
    RootsWellFormed(sources);
    assert Component(SOURCES) by { assert SOURCES[0] == 's' && '/' !in SOURCES; }
    ItemsDistinct([SOURCES], Roots(sources));
    ItemsComponents([SOURCES], Roots(sources));
  }

  lemma {:induction false} SamePath(items: seq<Item>, path: Path)
    requires ComponentPaths(items) && path != [] && Components(path)
    ensures forall k :: 0 <= k < |items| ==> (Join(items[k].path, '/') == Join(path, '/') <==> items[k].path == path)
  {
    forall k | 0 <= k < |items| ensures Join(items[k].path, '/') == Join(path, '/') <==> items[k].path == path {
      JoinInjective(items[k].path, path);
    }
  }

  lemma {:induction false} BelowSources(p: Path)
    requires Components(p)
    ensures Components([SOURCES] + p)
  {
    assert Component(SOURCES) by { assert SOURCES[0] == 's' && '/' !in SOURCES; }
  }

  lemma {:induction false} EntryExact(sources: seq<Source>, p: Path)
    requires Declared(sources) && p != [] && Components(p)
    ensures var there := Lookup(Roots(sources), p);
      Join([SOURCES] + p, '/') in EntryPaths(ArchiveItems(sources)) <==> there.Some? && IsEntry(there.value)
  {
    var items, path, there := ArchiveItems(sources), [SOURCES] + p, Lookup(Roots(sources), p);
    ArchiveShape(sources);
    BelowSources(p);
    SamePath(items, path);
    Located(sources, p);
    EntryPathsMember(items, Join(path, '/'));
    if there.Some? && IsEntry(there.value) {
      var k :| 0 <= k < |items| && items[k] == Item(path, there.value);
      assert EntryAt(items, k, Join(path, '/'));
    }
  }

  lemma {:induction false} LinkExact(sources: seq<Source>, p: Path, r: LinkRecord)
    requires Declared(sources) && p != [] && Components(p)
    ensures var there := Lookup(Roots(sources), p);
      r in LinkRecords(ArchiveItems(sources), sources) && r.archivePath == Join([SOURCES] + p, '/') <==>
      there.Some? && IsRecord(Item([SOURCES] + p, there.value), sources, r)
  {
    var items, path, there := ArchiveItems(sources), [SOURCES] + p, Lookup(Roots(sources), p);
    ArchiveShape(sources);
    BelowSources(p);
    SamePath(items, path);
    Located(sources, p);
    LinkRecordsMember(items, sources, r);
    if there.Some? {
      var k :| 0 <= k < |items| && items[k] == Item(path, there.value);
    }
  }

  /** For every declared tree and every path below the sources: the path is an archive entry exactly
      when it leads to a file or directory, its link metadata exists exactly when it leads to an
      acceptable link, and no entry and no link path occurs twice. */
  lemma {:induction false} ArchiveExact(sources: seq<Source>, p: Path)
    requires Declared(sources) && p != [] && Components(p)
    ensures var items, there := ArchiveItems(sources), Lookup(Roots(sources), p);
      && Unique(EntryPaths(items)) && UniquePaths(LinkRecords(items, sources))
      && (Join(["sources"] + p, '/') in EntryPaths(items) <==>
          there.Some? && (there.value.FileNode? || there.value.DirNode?))
      && forall r :: r in LinkRecords(items, sources) && r.archivePath == Join(["sources"] + p, '/') <==>
           there.Some? && there.value.LinkNode? && LinkOk(there.value.link, sources) &&
           r == RecordOf(Join(["sources"] + p, '/'), there.value.link, sources)
  {
    var items := ArchiveItems(sources);
    assert Unique(EntryPaths(items)) && UniquePaths(LinkRecords(items, sources)) by {
      ArchiveShape(sources);
      EntryPathsUnique(items);
      LinkRecordsUnique(items, sources);
    }
    EntryExact(sources, p);
    forall r {
      LinkExact(sources, p, r);
    }
  }

  /** At most one item has a given path, and it is the node the path leads to. */
  lemma {:induction false} Located(sources: seq<Source>, p: Path)
    requires Declared(sources) && p != []
    ensures var items, there := ArchiveItems(sources), Lookup(Roots(sources), p);
      && (forall k :: 0 <= k < |items| && items[k].path == [SOURCES] + p ==> there == Some(items[k].node))
      && (there.Some? ==> exists k :: 0 <= k < |items| && items[k] == Item([SOURCES] + p, there.value))
  {
    var items, there := ArchiveItems(sources), Lookup(Roots(sources), p);
    RootsWellFormed(sources);
    forall k | 0 <= k < |items| && items[k].path == [SOURCES] + p ensures there == Some(items[k].node) {
      ItemsExact([SOURCES], Roots(sources), p, items[k].node);
      assert Item([SOURCES] + p, items[k].node) == items[k] && items[k] in items;
    }
    if there.Some? {
      ItemsExact([SOURCES], Roots(sources), p, there.value);
    }
  }

  /** A directory entry that the walk accepts: a printable name for a file, a directory, or a link with a
      printable text that resolves to a file or directory below a declared root. */
  ghost predicate Acceptable(name: string, n: Node, sources: seq<Source>) {
    && Printable(name) && !n.SpecialNode?
    && (n.LinkNode? ==>
          && n.link.text != "" && Printable(n.link.text)
          && n.link.target.Some? && n.link.target.value.kind.Some?
          && exists s :: s in sources && s.root <= n.link.target.value.path)
  }

  ghost predicate AllAcceptable(items: seq<Item>, sources: seq<Source>) {
    forall i :: 0 <= i < |items| ==>
      items[i].path != [] && Acceptable(items[i].path[|items[i].path| - 1], items[i].node, sources)
  }

  lemma {:induction false} AcceptableConcat(a: seq<Item>, b: seq<Item>, sources: seq<Source>)
    ensures AllAcceptable(a + b, sources) <==> AllAcceptable(a, sources) && AllAcceptable(b, sources)
  {
    assert forall i :: 0 <= i < |a| ==> (a + b)[i] == a[i];
    assert forall i :: 0 <= i < |b| ==> (a + b)[|a| + i] == b[i];
  }

  lemma {:induction false} WalkableItems(at: Path, cs: seq<Child>, sources: seq<Source>)
    ensures Walkable(cs, sources) <==> AllAcceptable(Items(at, cs), sources)
    decreases cs
  {
    if cs != [] {
      WalkableChildItems(at, cs[0], sources);
      WalkableItems(at, cs[1..], sources);
      AcceptableConcat(ChildItems(at, cs[0]), Items(at, cs[1..]), sources);
      assert Walkable(cs, sources) <==>
        Printable(cs[0].name) && WalkableNode(cs[0].node, sources) && Walkable(cs[1..], sources);
    }
  }

  lemma {:induction false} WalkableChildItems(at: Path, c: Child, sources: seq<Source>)
    ensures Printable(c.name) && WalkableNode(c.node, sources) <==> AllAcceptable(ChildItems(at, c), sources)
    decreases c
  {
    var here := at + [c.name];
    var first := [Item(here, c.node)];
    assert here[|here| - 1] == c.name && first[0] == Item(here, c.node) && first + [] == first;
    match c.node {
      case LinkNode(l) =>
        if l.target.Some? {
          DeepestIsDeepest(sources, l.target.value.path);
        }
      case DirNode(children) =>
        WalkableItems(here, children, sources);
        AcceptableConcat(first, Items(here, children), sources);
      case _ =>
    }
  }

  lemma {:induction false} RootsAcceptable(sources: seq<Source>)
    requires Declared(sources)
    ensures AllWalkable(sources) <==> AllAcceptable(ArchiveItems(sources), sources)
  {
    var cs := Roots(sources);
    forall i | 0 <= i < |sources| ensures Printable(cs[i].name) {
      assert SourceId(cs[i].name);
    }
    WalkableItems([SOURCES], cs, sources);
    assert forall i :: 0 <= i < |sources| ==>
      (WalkableNode(cs[i].node, sources) <==> Walkable(sources[i].children, sources));
  }

  /** What the walk lists is what paths lead to. */
  lemma {:induction false} ItemLocated(sources: seq<Source>, k: nat)
    requires Declared(sources) && k < |ArchiveItems(sources)|
    ensures var item := ArchiveItems(sources)[k];
      && |item.path| >= 2 && item.path == [SOURCES] + item.path[1..]
      && Lookup(Roots(sources), item.path[1..]) == Some(item.node)
  {
    var item := ArchiveItems(sources)[k];
    ItemsThrough([SOURCES], Roots(sources));
    assert item.path[..1] == [SOURCES] && item.path == [SOURCES] + item.path[1..];
    Located(sources, item.path[1..]);
  }

  ghost predicate AcceptableAt(sources: seq<Source>, p: Path)
    requires p != []
  {
    var there := Lookup(Roots(sources), p);
    there.Some? ==> Acceptable(p[|p| - 1], there.value, sources)
  }

  lemma {:induction false} AcceptedAt(sources: seq<Source>, p: Path)
    requires Declared(sources) && AllAcceptable(ArchiveItems(sources), sources) && p != []
    ensures AcceptableAt(sources, p)
  {
    Located(sources, p);
    assert ([SOURCES] + p)[|p|] == p[|p| - 1];
  }

  /** An archive is built exactly when everything that a path leads to is acceptable. */
  lemma {:induction false} BuiltExactly(sources: seq<Source>)
    requires Declared(sources)
    ensures AllWalkable(sources) <==> forall p: Path :: p != [] ==> AcceptableAt(sources, p)
  {
    var items := ArchiveItems(sources);
    RootsAcceptable(sources);
    if AllWalkable(sources) {
      forall p: Path | p != [] ensures AcceptableAt(sources, p) {
        AcceptedAt(sources, p);
      }
    }
    if forall p: Path :: p != [] ==> AcceptableAt(sources, p) {
      forall k | 0 <= k < |items|
        ensures items[k].path != [] && Acceptable(items[k].path[|items[k].path| - 1], items[k].node, sources)
      {
        ItemLocated(sources, k);
        assert AcceptableAt(sources, items[k].path[1..]);
      }
    }
  }

  /** In an archive that is built, every link of the trees has its record. */
  lemma {:induction false} EveryLinkRecorded(sources: seq<Source>, p: Path, l: Link)
    requires Declared(sources) && AllWalkable(sources) && p != [] && Components(p)
    requires Lookup(Roots(sources), p) == Some(LinkNode(l))
    ensures LinkOk(l, sources)
    ensures RecordOf(Join([SOURCES] + p, '/'), l, sources) in LinkRecords(ArchiveItems(sources), sources)
  {
    BuiltExactly(sources);
    assert AcceptableAt(sources, p);
    DeepestIsDeepest(sources, l.target.value.path);
    ArchiveExact(sources, p);
  }
}
