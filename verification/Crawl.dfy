/**
 crawl.go: the bounded depth-first walk over an archive.

 The gateway is an oracle: `children` lists a directory and `classify` probes a
 CID (None is an error). The graph may be cyclic and infinite.
 */
module Crawl {
  import opened Seqs
  import opened Options
  import Schema
  import Text

  type Cid = Schema.Cid

  datatype Kind = Unknown | Dir | Pdf | Other

  datatype Child = Child(name: string, cid: Cid)

  datatype Gateway = Gateway(children: Cid -> Option<seq<Child>>, classify: Cid -> Option<Kind>)

  /** What the walk sees: directory listings, and the kind it gives each entry (None is an error). */
  datatype Graph = Graph(children: Cid -> Option<seq<Child>>, kind: Child -> Option<Kind>)

  datatype Warning = EnumerateFailed | ClassifyFailed | MaxDepthReached | MaxDocsReached

  datatype CrawlError = RootUnreadable | RootNotDirectory

  datatype CrawlResult = Docs(docs: seq<Cid>) | Failed(error: CrawlError)

  const DEFAULT_MAX_DEPTH: nat := 8
  const DEFAULT_MAX_DOCS: nat := 5000

  const NON_PDF_EXT := {
    ".txt", ".md", ".json", ".xml", ".csv", ".tsv", ".html", ".htm", ".png", ".jpg", ".jpeg", ".gif",
    ".svg", ".webp", ".zip", ".gz", ".tar", ".bz2", ".doc", ".docx", ".ppt", ".pptx", ".xls", ".xlsx",
    ".mp4", ".mp3", ".wav", ".avi", ".mov", ".bin", ".epub", ".djvu", ".ps", ".tex", ".bib", ".yaml", ".yml" }

  /** path.Ext. */
  function Ext(n: string): string {
    if n == "" || n[|n| - 1] == '/' then ""
    else if n[|n| - 1] == '.' then "."
    else
      var e := Ext(n[..|n| - 1]);
      if e == "" then "" else e + [n[|n| - 1]]
  }

  function ClassifyByName(name: string): Kind {
    var n := Text.Lower(Text.Trim(name));
    if n == "" then Unknown
    else if Text.HasSuffix(n, ".pdf") then Pdf
    else if Ext(n) == "" then Unknown
    else if Ext(n) in NON_PDF_EXT then Other
    else Unknown
  }

  /** The kind of a directory entry: by name, else by probing. */
  function EntryKind(gw: Gateway, ch: Child): Option<Kind> {
    var k := ClassifyByName(ch.name);
    if k == Unknown then gw.classify(ch.cid) else Some(k)
  }

  function GraphOf(gw: Gateway): Graph {
    Graph(gw.children, (ch: Child) => EntryKind(gw, ch))
  }

  /** State of a crawl: captured variables, the log of enumerations, and the warnings logged. */
  datatype Trail = Trail(visited: set<Cid>, order: seq<Cid>, enumerated: seq<Cid>, warnings: set<Warning>)

  datatype Limits = Limits(depth: nat, docs: nat)

  const START := Trail({}, [], [], {})

  function Walk(g: Graph, max: Limits, cid: Cid, depth: nat, s: Trail): Trail
    requires depth < max.depth
    decreases max.depth - depth, 2, 0
  {
    if |s.order| >= max.docs || cid in s.visited then s
    else
      var s1 := s.(visited := s.visited + {cid}, enumerated := s.enumerated + [cid]);
      match g.children(cid)
      case None => s1.(warnings := s1.warnings + {EnumerateFailed})
      case Some(children) => Each(g, max, children, depth, s1)
  }

  function Each(g: Graph, max: Limits, children: seq<Child>, depth: nat, s: Trail): Trail
    requires depth < max.depth
    decreases max.depth - depth, 1, |children|
  {
    if children == [] then s
    else if |s.order| >= max.docs then s.(warnings := s.warnings + {MaxDocsReached})
    else Each(g, max, children[1..], depth, Visit(g, max, children[0], depth, s))
  }

  function Visit(g: Graph, max: Limits, ch: Child, depth: nat, s: Trail): Trail
    requires depth < max.depth
    decreases max.depth - depth, 0, 0
  {
    if ch.cid in s.visited then s
    else
      match g.kind(ch)
      case None => s.(warnings := s.warnings + {ClassifyFailed})
      case Some(Dir) =>
        if depth + 1 < max.depth then Walk(g, max, ch.cid, depth + 1, s)
        else s.(warnings := s.warnings + {MaxDepthReached})
      case Some(Pdf) => if ch.cid in s.order then s else s.(order := s.order + [ch.cid])
      case Some(_) => s
  }

  // ---- The crawler ----

  class Crawler {
    const gateway: Gateway
    const maxDepth: nat
    const maxDocs: nat
    var visited: set<Cid>
    var docs: set<Cid>
    var order: seq<Cid>
    var enumerated: seq<Cid>
    var warnings: set<Warning>

    constructor (gateway: Gateway, maxDepth: int, maxDocs: int)
      ensures this.gateway == gateway
      ensures this.maxDepth == (if maxDepth <= 0 then DEFAULT_MAX_DEPTH else maxDepth)
      ensures this.maxDocs == (if maxDocs <= 0 then DEFAULT_MAX_DOCS else maxDocs)
    {
      this.gateway := gateway;
      this.maxDepth := if maxDepth <= 0 then DEFAULT_MAX_DEPTH else maxDepth;
      this.maxDocs := if maxDocs <= 0 then DEFAULT_MAX_DOCS else maxDocs;
    }

    ghost function G(): Graph {
      GraphOf(gateway)
    }

    ghost function Max(): Limits {
      Limits(maxDepth, maxDocs)
    }

    ghost function State(): Trail
      reads this
    {
      Trail(visited, order, enumerated, warnings)
    }

    ghost predicate DocsMatchOrder()
      reads this
    {
      forall c :: c in docs <==> c in order
    }

    method WalkDir(cid: Cid, depth: nat)
      requires depth < maxDepth && DocsMatchOrder()
      modifies this
      ensures DocsMatchOrder()
      ensures State() == Walk(G(), Max(), cid, depth, old(State()))
      decreases maxDepth - depth
    {
      if |order| >= maxDocs {
        return;
      }
      if cid in visited {
        return;
      }
      visited := visited + {cid};
      enumerated := enumerated + [cid];
      var listing := gateway.children(cid);
      if listing == None {
        warnings := warnings + {EnumerateFailed};
        return;
      }
      var children := listing.value;
      ghost var s1 := State();
      var i := 0;
      while i < |children|
        invariant 0 <= i <= |children|
        invariant DocsMatchOrder()
        invariant Each(G(), Max(), children, depth, s1) == Each(G(), Max(), children[i..], depth, State())
      {
        var ch := children[i];
        ghost var before := State();
        assert children[i..][1..] == children[i + 1..];
        if |order| >= maxDocs {
          warnings := warnings + {MaxDocsReached};
          return;
        }
        if ch.cid !in visited {
          var kind := EntryKind(gateway, ch);
          match kind {
            case None =>
              warnings := warnings + {ClassifyFailed};
            case Some(Dir) =>
              if depth + 1 < maxDepth {
                WalkDir(ch.cid, depth + 1);
              } else {
                warnings := warnings + {MaxDepthReached};
              }
            case Some(Pdf) =>
              if ch.cid !in docs {
                docs := docs + {ch.cid};
                order := order + [ch.cid];
              }
            case Some(_) =>
          }
        }
        assert State() == Visit(G(), Max(), ch, depth, before);
        i := i + 1;
      }
    }

    method Crawl(root: Cid) returns (r: CrawlResult)
      requires 0 < maxDepth
      modifies this
      ensures r == match gateway.classify(root)
                   case None => Failed(RootUnreadable)
                   case Some(k) => if k != Dir then Failed(RootNotDirectory)
                                   else Docs(Walk(G(), Max(), root, 0, START).order)
      ensures r.Docs? ==> State() == Walk(G(), Max(), root, 0, START) && Distinct(r.docs)
    {
      var kind := gateway.classify(root);
      if kind == None {
        return Failed(RootUnreadable);
      }
      if kind.value != Dir {
        return Failed(RootNotDirectory);
      }
      visited, docs, order, enumerated, warnings := {}, {}, [], [], {};
      WalkDir(root, 0);
      WalkIsNeat(G(), Max(), root, 0, START);
      r := Docs(order);
    }
  }

  // ---- Growth and duplicate freedom ----

  ghost predicate Grows(s: Trail, u: Trail) {
    && s.visited <= u.visited
    && s.order <= u.order
    && s.enumerated <= u.enumerated
    && s.warnings <= u.warnings
  }

  lemma {:induction false} WalkGrows(g: Graph, max: Limits, cid: Cid, depth: nat, s: Trail)
    requires depth < max.depth
    ensures Grows(s, Walk(g, max, cid, depth, s))
    decreases max.depth - depth, 2, 0
  {
    if |s.order| < max.docs && cid !in s.visited && g.children(cid).Some? {
      EachGrows(g, max, g.children(cid).value, depth,
                s.(visited := s.visited + {cid}, enumerated := s.enumerated + [cid]));
    }
  }

  lemma {:induction false} EachGrows(g: Graph, max: Limits, children: seq<Child>, depth: nat, s: Trail)
    requires depth < max.depth
    ensures Grows(s, Each(g, max, children, depth, s))
    decreases max.depth - depth, 1, |children|
  {
    if children != [] && |s.order| < max.docs {
      VisitGrows(g, max, children[0], depth, s);
      EachGrows(g, max, children[1..], depth, Visit(g, max, children[0], depth, s));
    }
  }

  lemma {:induction false} VisitGrows(g: Graph, max: Limits, ch: Child, depth: nat, s: Trail)
    requires depth < max.depth
    ensures Grows(s, Visit(g, max, ch, depth, s))
    decreases max.depth - depth, 0, 0
  {
    if ch.cid !in s.visited && g.kind(ch) == Some(Dir) && depth + 1 < max.depth {
      WalkGrows(g, max, ch.cid, depth + 1, s);
    }
  }

  /** No document is listed twice, no directory is enumerated twice. */
  ghost predicate Neat(s: Trail) {
    && Distinct(s.order)
    && Distinct(s.enumerated)
    && (forall c :: c in s.enumerated <==> c in s.visited)
  }

  lemma {:induction false} WalkIsNeat(g: Graph, max: Limits, cid: Cid, depth: nat, s: Trail)
    requires depth < max.depth && Neat(s)
    ensures Neat(Walk(g, max, cid, depth, s))
    decreases max.depth - depth, 2, 0
  {
    if |s.order| < max.docs && cid !in s.visited && g.children(cid).Some? {
      EachIsNeat(g, max, g.children(cid).value, depth,
                 s.(visited := s.visited + {cid}, enumerated := s.enumerated + [cid]));
    }
  }

  lemma {:induction false} EachIsNeat(g: Graph, max: Limits, children: seq<Child>, depth: nat, s: Trail)
    requires depth < max.depth && Neat(s)
    ensures Neat(Each(g, max, children, depth, s))
    decreases max.depth - depth, 1, |children|
  {
    if children != [] && |s.order| < max.docs {
      VisitIsNeat(g, max, children[0], depth, s);
      EachIsNeat(g, max, children[1..], depth, Visit(g, max, children[0], depth, s));
    }
  }

  lemma {:induction false} VisitIsNeat(g: Graph, max: Limits, ch: Child, depth: nat, s: Trail)
    requires depth < max.depth && Neat(s)
    ensures Neat(Visit(g, max, ch, depth, s))
    decreases max.depth - depth, 0, 0
  {
    if ch.cid !in s.visited && g.kind(ch) == Some(Dir) && depth + 1 < max.depth {
      WalkIsNeat(g, max, ch.cid, depth + 1, s);
    }
  }

  // ---- Reachability ----

  ghost predicate HasEntry(g: Graph, d: Cid, c: Cid, k: Kind) {
    && g.children(d).Some?
    && exists ch :: ch in g.children(d).value && ch.cid == c && g.kind(ch) == Some(k)
  }

  /** `d` is at the end of a directory path of `k` links from `root`. */
  ghost predicate DirAt(g: Graph, root: Cid, d: Cid, k: nat)
    decreases k
  {
    if k == 0 then d == root else exists e :: DirAt(g, root, e, k - 1) && HasEntry(g, e, d, Dir)
  }

  /** `c` is a PDF entry of a directory fewer than `n` links from `root`. */
  ghost predicate PdfWithin(g: Graph, root: Cid, c: Cid, n: nat) {
    exists d, k: nat :: k < n && DirAt(g, root, d, k) && HasEntry(g, d, c, Pdf)
  }

  ghost predicate ReachableDir(g: Graph, root: Cid, d: Cid) {
    exists k: nat :: DirAt(g, root, d, k)
  }

  ghost predicate ReachablePdf(g: Graph, root: Cid, c: Cid) {
    exists d :: ReachableDir(g, root, d) && HasEntry(g, d, c, Pdf)
  }

  ghost predicate Sound(g: Graph, max: Limits, root: Cid, s: Trail) {
    && (forall d :: d in s.visited ==> exists k: nat :: k < max.depth && DirAt(g, root, d, k))
    && (forall c :: c in s.order ==> PdfWithin(g, root, c, max.depth))
  }

  lemma {:induction false} WalkIsSound(g: Graph, max: Limits, root: Cid, cid: Cid, depth: nat, s: Trail)
    requires depth < max.depth && Sound(g, max, root, s) && DirAt(g, root, cid, depth)
    ensures Sound(g, max, root, Walk(g, max, cid, depth, s))
    decreases max.depth - depth, 2, 0
  {
    if |s.order| < max.docs && cid !in s.visited && g.children(cid).Some? {
      EachIsSound(g, max, root, cid, g.children(cid).value, depth,
                  s.(visited := s.visited + {cid}, enumerated := s.enumerated + [cid]));
    }
  }

  lemma {:induction false} EachIsSound(
      g: Graph, max: Limits, root: Cid, cid: Cid, children: seq<Child>, depth: nat, s: Trail)
    requires depth < max.depth && Sound(g, max, root, s) && DirAt(g, root, cid, depth)
    requires g.children(cid).Some? && forall ch :: ch in children ==> ch in g.children(cid).value
    ensures Sound(g, max, root, Each(g, max, children, depth, s))
    decreases max.depth - depth, 1, |children|
  {
    if children != [] && |s.order| < max.docs {
      assert children[0] in children;
      VisitIsSound(g, max, root, cid, children[0], depth, s);
      EachIsSound(g, max, root, cid, children[1..], depth, Visit(g, max, children[0], depth, s));
    }
  }

  lemma {:induction false} VisitIsSound(g: Graph, max: Limits, root: Cid, cid: Cid, ch: Child, depth: nat, s: Trail)
    requires depth < max.depth && Sound(g, max, root, s) && DirAt(g, root, cid, depth)
    requires g.children(cid).Some? && ch in g.children(cid).value
    ensures Sound(g, max, root, Visit(g, max, ch, depth, s))
    decreases max.depth - depth, 0, 0
  {
    if ch.cid !in s.visited {
      match g.kind(ch) {
        case Some(Dir) =>
          assert HasEntry(g, cid, ch.cid, Dir);
          if depth + 1 < max.depth {
            assert DirAt(g, root, ch.cid, depth + 1);
            WalkIsSound(g, max, root, ch.cid, depth + 1, s);
          }
        case Some(Pdf) =>
          assert HasEntry(g, cid, ch.cid, Pdf);
          assert PdfWithin(g, root, ch.cid, max.depth);
        case _ =>
      }
    }
  }

  /** Every crawled document is a PDF entry of a directory within the depth bound. */
  lemma CrawlIsSound(g: Graph, max: Limits, root: Cid, c: Cid)
    requires 0 < max.depth
    requires c in Walk(g, max, root, 0, START).order
    ensures PdfWithin(g, root, c, max.depth)
  {
    assert DirAt(g, root, root, 0);
    WalkIsSound(g, max, root, root, 0, START);
  }

  /** Every directory is enumerated at most once, and only reachable ones are. */
  lemma CrawlEnumeratesOnce(g: Graph, max: Limits, root: Cid)
    requires 0 < max.depth
    ensures Distinct(Walk(g, max, root, 0, START).enumerated)
    ensures Distinct(Walk(g, max, root, 0, START).order)
    ensures forall d :: d in Walk(g, max, root, 0, START).enumerated ==> ReachableDir(g, root, d)
  {
    assert DirAt(g, root, root, 0);
    WalkIsSound(g, max, root, root, 0, START);
    WalkIsNeat(g, max, root, 0, START);
    var s := Walk(g, max, root, 0, START);
    forall d | d in s.enumerated
      ensures ReachableDir(g, root, d)
    {
      assert d in s.visited;
    }
  }

  // ---- Completeness ----

  /** A path of directory links from the root. */
  ghost predicate DirPath(g: Graph, root: Cid, path: seq<Cid>) {
    && path != [] && path[0] == root
    && forall i :: 0 < i < |path| ==> HasEntry(g, path[i - 1], path[i], Dir)
  }

  /** One that visits nothing twice. */
  ghost predicate SimplePath(g: Graph, root: Cid, path: seq<Cid>) {
    DirPath(g, root, path) && Distinct(path)
  }

  /** `d` is at the end of a path that leaves no room to go deeper. */
  ghost predicate AtTheBottom(g: Graph, max: Limits, root: Cid, d: Cid) {
    exists path :: SimplePath(g, root, path) && |path| == max.depth && path[|path| - 1] == d
  }

  /**
   An entry of `d` has been dealt with: PDFs are listed (or were walked as
   directories), and directories are visited, unless refused for their depth.
   */
  ghost predicate Handled(g: Graph, max: Limits, root: Cid, d: Cid, ch: Child, s: Trail) {
    && (g.kind(ch) == Some(Pdf) ==> ch.cid in s.order || ch.cid in s.visited)
    && (g.kind(ch) == Some(Dir) ==>
          ch.cid in s.visited || (MaxDepthReached in s.warnings && AtTheBottom(g, max, root, d)))
  }

  /** `d` could not be listed, or all its entries have been dealt with. */
  ghost predicate Finished(g: Graph, max: Limits, root: Cid, d: Cid, s: Trail) {
    g.children(d).Some? ==> forall ch :: ch in g.children(d).value ==> Handled(g, max, root, d, ch, s)
  }

  /** All directories first visited between `s` and `u` are finished in `u`. */
  ghost predicate FinishedSince(g: Graph, max: Limits, root: Cid, s: Trail, u: Trail) {
    forall d :: d in u.visited && d !in s.visited ==> Finished(g, max, root, d, u)
  }

  lemma FinishedGrows(g: Graph, max: Limits, root: Cid, d: Cid, s: Trail, u: Trail)
    requires Finished(g, max, root, d, s) && Grows(s, u)
    ensures Finished(g, max, root, d, u)
  {
    if g.children(d).Some? {
      forall ch | ch in g.children(d).value
        ensures Handled(g, max, root, d, ch, u)
      {
        assert Handled(g, max, root, d, ch, s);
      }
    }
  }

  lemma {:induction false} WalkFinishes(g: Graph, max: Limits, root: Cid, path: seq<Cid>, depth: nat, s: Trail)
    requires SimplePath(g, root, path) && |path| == depth + 1 && depth < max.depth && |s.order| < max.docs
    requires forall i :: 0 <= i < depth ==> path[i] in s.visited
    requires MaxDocsReached !in Walk(g, max, path[depth], depth, s).warnings
    ensures path[depth] in Walk(g, max, path[depth], depth, s).visited
    ensures FinishedSince(g, max, root, s, Walk(g, max, path[depth], depth, s))
    decreases max.depth - depth, 2, 0
  {
    var cid := path[depth];
    if cid !in s.visited && g.children(cid).Some? {
      var s1 := s.(visited := s.visited + {cid}, enumerated := s.enumerated + [cid]);
      var children := g.children(cid).value;
      EachGrows(g, max, children, depth, s1);
      EachFinishes(g, max, root, path, children, depth, s1);
    }
  }

  lemma {:induction false} EachFinishes(
      g: Graph, max: Limits, root: Cid, path: seq<Cid>, children: seq<Child>, depth: nat, s: Trail)
    requires SimplePath(g, root, path) && |path| == depth + 1 && depth < max.depth
    requires forall i :: 0 <= i <= depth ==> path[i] in s.visited
    requires g.children(path[depth]).Some? && forall ch :: ch in children ==> ch in g.children(path[depth]).value
    requires MaxDocsReached !in Each(g, max, children, depth, s).warnings
    ensures forall ch :: ch in children ==> Handled(g, max, root, path[depth], ch, Each(g, max, children, depth, s))
    ensures FinishedSince(g, max, root, s, Each(g, max, children, depth, s))
    decreases max.depth - depth, 1, |children|
  {
    if children != [] {
      HeadIsMember(children);
      var ch, rest := children[0], children[1..];
      var s1, u := Visit(g, max, ch, depth, s), Each(g, max, children, depth, s);
      assert u == Each(g, max, rest, depth, s1);
      VisitGrows(g, max, ch, depth, s);
      EachGrows(g, max, rest, depth, s1);
      VisitFinishes(g, max, root, path, ch, depth, s);
      EachFinishes(g, max, root, path, rest, depth, s1);
      forall d | d in u.visited && d !in s.visited
        ensures Finished(g, max, root, d, u)
      {
        if d in s1.visited {
          FinishedGrows(g, max, root, d, s1, u);
        }
      }
      forall x | x in children
        ensures Handled(g, max, root, path[depth], x, u)
      {
        assert x == ch || x in rest;
      }
    }
  }

  lemma {:induction false} VisitFinishes(
      g: Graph, max: Limits, root: Cid, path: seq<Cid>, ch: Child, depth: nat, s: Trail)
    requires SimplePath(g, root, path) && |path| == depth + 1 && depth < max.depth && |s.order| < max.docs
    requires forall i :: 0 <= i <= depth ==> path[i] in s.visited
    requires g.children(path[depth]).Some? && ch in g.children(path[depth]).value
    requires MaxDocsReached !in Visit(g, max, ch, depth, s).warnings
    ensures Handled(g, max, root, path[depth], ch, Visit(g, max, ch, depth, s))
    ensures FinishedSince(g, max, root, s, Visit(g, max, ch, depth, s))
    decreases max.depth - depth, 0, 0
  {
    if ch.cid !in s.visited && g.kind(ch) == Some(Dir) {
      if depth + 1 < max.depth {
        var longer := path + [ch.cid];
        assert HasEntry(g, path[depth], ch.cid, Dir);
        assert SimplePath(g, root, longer);
        WalkFinishes(g, max, root, longer, depth + 1, s);
      } else {
        assert AtTheBottom(g, max, root, path[depth]);
      }
    }
  }

  /**
   Short of the document cap, whatever fails to list or to classify and whatever is
   too deep, nothing else is lost: of every directory that was enumerated and could
   be listed, each PDF is returned (or was enumerated itself), and each directory
   enumerated, unless a path to its parent is as long as the depth bound allows.
   */
  lemma NothingElseIsLost(g: Graph, max: Limits, root: Cid, d: Cid, ch: Child)
    requires 0 < max.depth && 0 < max.docs
    requires MaxDocsReached !in Walk(g, max, root, 0, START).warnings
    requires d in Walk(g, max, root, 0, START).enumerated && g.children(d).Some? && ch in g.children(d).value
    ensures var s := Walk(g, max, root, 0, START);
            && root in s.enumerated
            && (g.kind(ch) == Some(Pdf) ==> ch.cid in s.order || ch.cid in s.enumerated)
            && (g.kind(ch) == Some(Dir) ==>
                  ch.cid in s.enumerated || (MaxDepthReached in s.warnings && AtTheBottom(g, max, root, d)))
  {
    assert SimplePath(g, root, [root]);
    WalkFinishes(g, max, root, [root], 0, START);
    WalkIsNeat(g, max, root, 0, START);
    assert Handled(g, max, root, d, ch, Walk(g, max, root, 0, START));
  }

  lemma {:induction false} ReachableIsEnumerated(g: Graph, max: Limits, root: Cid, d: Cid, k: nat)
    requires 0 < max.depth && 0 < max.docs && DirAt(g, root, d, k)
    requires Walk(g, max, root, 0, START).warnings !! {MaxDepthReached, MaxDocsReached}
    ensures d in Walk(g, max, root, 0, START).enumerated
    decreases k
  {
    if k == 0 {
      WalkFinishes(g, max, root, [root], 0, START);
      WalkIsNeat(g, max, root, 0, START);
    } else {
      var e :| DirAt(g, root, e, k - 1) && HasEntry(g, e, d, Dir);
      ReachableIsEnumerated(g, max, root, e, k - 1);
      var ch :| ch in g.children(e).value && ch.cid == d && g.kind(ch) == Some(Dir);
      NothingElseIsLost(g, max, root, e, ch);
    }
  }

  /**
   A crawl that ran into neither cap enumerated exactly the reachable directories
   and returned every reachable PDF, cycles notwithstanding: a listing or an entry
   that failed costs only what lies behind it. The one exception is a CID that is
   also reachable as a directory.
   */
  lemma CrawlIsComplete(g: Graph, max: Limits, root: Cid, c: Cid)
    requires 0 < max.depth && 0 < max.docs
    requires Walk(g, max, root, 0, START).warnings !! {MaxDepthReached, MaxDocsReached}
    ensures c in Walk(g, max, root, 0, START).enumerated <==> ReachableDir(g, root, c)
    ensures !ReachableDir(g, root, c) ==> (c in Walk(g, max, root, 0, START).order <==> ReachablePdf(g, root, c))
  {
    var s := Walk(g, max, root, 0, START);
    assert DirAt(g, root, root, 0);
    WalkIsNeat(g, max, root, 0, START);
    WalkIsSound(g, max, root, root, 0, START);
    if ReachableDir(g, root, c) {
      var k: nat :| DirAt(g, root, c, k);
      ReachableIsEnumerated(g, max, root, c, k);
    }
    if c in s.order {
      var d, k: nat :| k < max.depth && DirAt(g, root, d, k) && HasEntry(g, d, c, Pdf);
      assert ReachableDir(g, root, d);
    }
    if ReachablePdf(g, root, c) {
      var d :| ReachableDir(g, root, d) && HasEntry(g, d, c, Pdf);
      var k: nat :| DirAt(g, root, d, k);
      ReachableIsEnumerated(g, max, root, d, k);
      var ch :| ch in g.children(d).value && ch.cid == c && g.kind(ch) == Some(Pdf);
      NothingElseIsLost(g, max, root, d, ch);
    }
  }

  /** Where kind is a function of the CID, such a crawl returns exactly the reachable PDFs. */
  lemma CrawlIsExact(g: Graph, max: Limits, root: Cid, kind: Cid -> Option<Kind>, c: Cid)
    requires 0 < max.depth && 0 < max.docs
    requires Walk(g, max, root, 0, START).warnings !! {MaxDepthReached, MaxDocsReached}
    requires kind(root) == Some(Dir) && forall ch :: g.kind(ch) == kind(ch.cid)
    ensures c in Walk(g, max, root, 0, START).order <==> ReachablePdf(g, root, c)
  {
    CrawlIsComplete(g, max, root, c);
    if c in Walk(g, max, root, 0, START).order {
      CrawlIsSound(g, max, root, c);
      var d, k: nat :| k < max.depth && DirAt(g, root, d, k) && HasEntry(g, d, c, Pdf);
      assert ReachableDir(g, root, d);
    }
    if ReachableDir(g, root, c) {
      var k: nat :| DirAt(g, root, c, k);
      assert kind(c) == Some(Dir);
      assert forall d :: !HasEntry(g, d, c, Pdf);
    }
  }

  // ---- Graphs no crawl complains about ----

  /**
   Every reachable directory lists and its entries classify, no directory path
   without repetition has `max.depth` links, and fewer than `max.docs` PDFs are
   reachable.
   */
  ghost predicate Tame(g: Graph, max: Limits, root: Cid, pdfs: set<Cid>) {
    && (forall d :: ReachableDir(g, root, d) ==>
          g.children(d).Some? && forall ch :: ch in g.children(d).value ==> g.kind(ch).Some?)
    && (forall path :: SimplePath(g, root, path) ==> |path| <= max.depth)
    && (forall c :: ReachablePdf(g, root, c) ==> c in pdfs)
    && |pdfs| < max.docs
  }

  lemma {:induction false} PathReaches(g: Graph, root: Cid, path: seq<Cid>)
    requires DirPath(g, root, path)
    ensures DirAt(g, root, path[|path| - 1], |path| - 1)
  {
    if |path| > 1 {
      var init := path[..|path| - 1];
      PathReaches(g, root, init);
      assert HasEntry(g, init[|init| - 1], path[|path| - 1], Dir);
    }
  }

  /** The cap is out of reach: what was found so far are reachable PDFs. */
  lemma OrderFits(g: Graph, max: Limits, root: Cid, pdfs: set<Cid>, s: Trail)
    requires Tame(g, max, root, pdfs) && Sound(g, max, root, s) && Neat(s)
    ensures |s.order| < max.docs
  {
    forall c | c in s.order
      ensures c in pdfs
    {
      var d, k: nat :| k < max.depth && DirAt(g, root, d, k) && HasEntry(g, d, c, Pdf);
      assert ReachableDir(g, root, d);
      assert ReachablePdf(g, root, c);
    }
    DistinctFits(s.order, pdfs);
  }

  /** What holds on entering a directory at the end of `path`, its ancestors all visited. */
  ghost predicate Quiet(g: Graph, max: Limits, root: Cid, pdfs: set<Cid>, path: seq<Cid>, s: Trail) {
    && Tame(g, max, root, pdfs) && SimplePath(g, root, path)
    && s.warnings == {} && Sound(g, max, root, s) && Neat(s)
  }

  lemma {:induction false} WalkQuiet(
      g: Graph, max: Limits, root: Cid, pdfs: set<Cid>, path: seq<Cid>, depth: nat, s: Trail)
    requires Quiet(g, max, root, pdfs, path, s) && |path| == depth + 1 && depth < max.depth
    requires forall i :: 0 <= i < depth ==> path[i] in s.visited
    ensures Walk(g, max, path[depth], depth, s).warnings == {}
    decreases max.depth - depth, 2, 0
  {
    var cid := path[depth];
    PathReaches(g, root, path);
    assert ReachableDir(g, root, cid);
    OrderFits(g, max, root, pdfs, s);
    if cid !in s.visited {
      var s1 := s.(visited := s.visited + {cid}, enumerated := s.enumerated + [cid]);
      EachQuiet(g, max, root, pdfs, path, g.children(cid).value, depth, s1);
    }
  }

  lemma {:induction false} EachQuiet(
      g: Graph, max: Limits, root: Cid, pdfs: set<Cid>, path: seq<Cid>, children: seq<Child>, depth: nat, s: Trail)
    requires Quiet(g, max, root, pdfs, path, s) && |path| == depth + 1 && depth < max.depth
    requires forall i :: 0 <= i <= depth ==> path[i] in s.visited
    requires g.children(path[depth]).Some? && forall ch :: ch in children ==> ch in g.children(path[depth]).value
    ensures Each(g, max, children, depth, s).warnings == {}
    decreases max.depth - depth, 1, |children|
  {
    OrderFits(g, max, root, pdfs, s);
    if children != [] {
      HeadIsMember(children);
      var ch, u := children[0], Visit(g, max, children[0], depth, s);
      PathReaches(g, root, path);
      VisitQuiet(g, max, root, pdfs, path, ch, depth, s);
      VisitIsSound(g, max, root, path[depth], ch, depth, s);
      VisitIsNeat(g, max, ch, depth, s);
      VisitGrows(g, max, ch, depth, s);
      EachQuiet(g, max, root, pdfs, path, children[1..], depth, u);
    }
  }

  lemma {:induction false} VisitQuiet(
      g: Graph, max: Limits, root: Cid, pdfs: set<Cid>, path: seq<Cid>, ch: Child, depth: nat, s: Trail)
    requires Quiet(g, max, root, pdfs, path, s) && |path| == depth + 1 && depth < max.depth
    requires forall i :: 0 <= i <= depth ==> path[i] in s.visited
    requires g.children(path[depth]).Some? && ch in g.children(path[depth]).value
    ensures Visit(g, max, ch, depth, s).warnings == {}
    decreases max.depth - depth, 0, 0
  {
    PathReaches(g, root, path);
    assert ReachableDir(g, root, path[depth]);
    if ch.cid !in s.visited && g.kind(ch) == Some(Dir) {
      var longer := path + [ch.cid];
      assert HasEntry(g, path[depth], ch.cid, Dir);
      assert SimplePath(g, root, longer);
      WalkQuiet(g, max, root, pdfs, longer, depth + 1, s);
    }
  }

  /** On such a graph no warning is logged, so the crawl is complete. */
  lemma TameCrawlIsComplete(g: Graph, max: Limits, root: Cid, pdfs: set<Cid>, c: Cid)
    requires 0 < max.depth && Tame(g, max, root, pdfs)
    ensures Walk(g, max, root, 0, START).warnings == {}
    ensures c in Walk(g, max, root, 0, START).enumerated <==> ReachableDir(g, root, c)
    ensures !ReachableDir(g, root, c) ==> (c in Walk(g, max, root, 0, START).order <==> ReachablePdf(g, root, c))
  {
    WalkQuiet(g, max, root, pdfs, [root], 0, START);
    CrawlIsComplete(g, max, root, c);
  }

  // ---- The depth bound, over the orders a gateway may list in ----

  /** Some entry draws a depth warning. */
  predicate TooDeep(g: Graph, max: Limits, root: Cid)
    requires 0 < max.depth
  {
    MaxDepthReached in Walk(g, max, root, 0, START).warnings
  }

  /** The same listings, each in an order of its own. */
  ghost predicate Relisted(g: Graph, h: Graph) {
    && h.kind == g.kind
    && forall d ::
         && (h.children(d).Some? <==> g.children(d).Some?)
         && (g.children(d).Some? ==> multiset(h.children(d).value) == multiset(g.children(d).value))
  }

  /** What holds on entering a directory at the end of `path` before any depth warning. */
  ghost predicate Shallow(g: Graph, max: Limits, root: Cid, path: seq<Cid>, s: Trail) {
    && SimplePath(g, root, path)
    && MaxDepthReached !in s.warnings
    && forall p :: SimplePath(g, root, p) ==> |p| <= max.depth
  }

  lemma {:induction false} WalkShallow(g: Graph, max: Limits, root: Cid, path: seq<Cid>, depth: nat, s: Trail)
    requires Shallow(g, max, root, path, s) && |path| == depth + 1 && depth < max.depth
    requires forall i :: 0 <= i < depth ==> path[i] in s.visited
    ensures MaxDepthReached !in Walk(g, max, path[depth], depth, s).warnings
    decreases max.depth - depth, 2, 0
  {
    var cid := path[depth];
    if |s.order| < max.docs && cid !in s.visited && g.children(cid).Some? {
      var s1 := s.(visited := s.visited + {cid}, enumerated := s.enumerated + [cid]);
      EachShallow(g, max, root, path, g.children(cid).value, depth, s1);
    }
  }

  lemma {:induction false} EachShallow(
      g: Graph, max: Limits, root: Cid, path: seq<Cid>, children: seq<Child>, depth: nat, s: Trail)
    requires Shallow(g, max, root, path, s) && |path| == depth + 1 && depth < max.depth
    requires forall i :: 0 <= i <= depth ==> path[i] in s.visited
    requires g.children(path[depth]).Some? && forall ch :: ch in children ==> ch in g.children(path[depth]).value
    ensures MaxDepthReached !in Each(g, max, children, depth, s).warnings
    decreases max.depth - depth, 1, |children|
  {
    if children != [] && |s.order| < max.docs {
      HeadIsMember(children);
      VisitShallow(g, max, root, path, children[0], depth, s);
      VisitGrows(g, max, children[0], depth, s);
      EachShallow(g, max, root, path, children[1..], depth, Visit(g, max, children[0], depth, s));
    }
  }

  lemma {:induction false} VisitShallow(
      g: Graph, max: Limits, root: Cid, path: seq<Cid>, ch: Child, depth: nat, s: Trail)
    requires Shallow(g, max, root, path, s) && |path| == depth + 1 && depth < max.depth
    requires forall i :: 0 <= i <= depth ==> path[i] in s.visited
    requires g.children(path[depth]).Some? && ch in g.children(path[depth]).value
    ensures MaxDepthReached !in Visit(g, max, ch, depth, s).warnings
    decreases max.depth - depth, 0, 0
  {
    if ch.cid !in s.visited && g.kind(ch) == Some(Dir) {
      var longer := path + [ch.cid];
      assert HasEntry(g, path[depth], ch.cid, Dir);
      assert SimplePath(g, root, longer);
      WalkShallow(g, max, root, longer, depth + 1, s);
    }
  }

  /** A relisting has the same paths. */
  lemma RelistedPaths(g: Graph, h: Graph, root: Cid, path: seq<Cid>)
    requires Relisted(g, h)
    ensures SimplePath(g, root, path) <==> SimplePath(h, root, path)
  {
    forall d, c
      ensures HasEntry(g, d, c, Dir) <==> HasEntry(h, d, c, Dir)
    {
      if g.children(d).Some? {
        assert forall ch :: ch in g.children(d).value <==> ch in multiset(g.children(d).value);
        assert forall ch :: ch in h.children(d).value <==> ch in multiset(h.children(d).value);
      }
    }
  }

  /** `ch` moved to the front. */
  function Front(s: seq<Child>, ch: Child): seq<Child> {
    if ch in s then [ch] + Without(s, ch) else s
  }

  function Without(s: seq<Child>, ch: Child): seq<Child> {
    if s == [] then [] else if s[0] == ch then s[1..] else [s[0]] + Without(s[1..], ch)
  }

  lemma {:induction false} WithoutTakesOne(s: seq<Child>, ch: Child)
    requires ch in s
    ensures multiset(Without(s, ch)) + multiset{ch} == multiset(s)
  {
    assert s == [s[0]] + s[1..];
    if s[0] != ch {
      WithoutTakesOne(s[1..], ch);
    }
  }

  /** The entry `d` is left by along `path`. */
  ghost function Successor(g: Graph, path: seq<Cid>, d: Cid): Option<Child> {
    if exists i: nat, ch :: LeavesBy(g, path, d, i, ch) then
      var i: nat, ch :| LeavesBy(g, path, d, i, ch);
      Some(ch)
    else None
  }

  ghost predicate LeavesBy(g: Graph, path: seq<Cid>, d: Cid, i: nat, ch: Child) {
    && i + 1 < |path| && path[i] == d
    && g.children(d).Some? && ch in g.children(d).value && ch.cid == path[i + 1] && g.kind(ch) == Some(Dir)
  }

  ghost function Lead(g: Graph, path: seq<Cid>, d: Cid): Option<seq<Child>> {
    var next := Successor(g, path, d);
    if g.children(d).Some? && next.Some? then Some(Front(g.children(d).value, next.value)) else g.children(d)
  }

  /** Every directory of `path` lists its successor first. */
  ghost function Along(g: Graph, path: seq<Cid>): Graph {
    Graph(d => Lead(g, path, d), g.kind)
  }

  lemma AlongRelists(g: Graph, path: seq<Cid>)
    ensures Relisted(g, Along(g, path))
  {
    forall d
      ensures Lead(g, path, d).Some? <==> g.children(d).Some?
      ensures g.children(d).Some? ==> multiset(Lead(g, path, d).value) == multiset(g.children(d).value)
    {
      var next := Successor(g, path, d);
      if g.children(d).Some? && next.Some? {
        WithoutTakesOne(g.children(d).value, next.value);
      }
    }
  }

  lemma AlongLeads(g: Graph, root: Cid, path: seq<Cid>, i: nat)
    requires SimplePath(g, root, path) && i + 1 < |path|
    ensures var list := Along(g, path).children(path[i]);
            list.Some? && list.value != [] && list.value[0].cid == path[i + 1] && g.kind(list.value[0]) == Some(Dir)
  {
    assert HasEntry(g, path[i], path[i + 1], Dir);
    var ch :| ch in g.children(path[i]).value && ch.cid == path[i + 1] && g.kind(ch) == Some(Dir);
    assert LeavesBy(g, path, path[i], i, ch);
  }

  /** The walk along a path listed first goes straight down it, to a directory it may not enter. */
  lemma {:induction false} WalkGoesAlong(g: Graph, max: Limits, root: Cid, path: seq<Cid>, depth: nat, s: Trail)
    requires SimplePath(g, root, path) && |path| == max.depth + 1 && depth < max.depth && 0 < max.docs
    requires s.order == [] && forall i :: depth <= i < |path| ==> path[i] !in s.visited
    ensures MaxDepthReached in Walk(Along(g, path), max, path[depth], depth, s).warnings
    decreases max.depth - depth
  {
    var h, cid := Along(g, path), path[depth];
    AlongLeads(g, root, path, depth);
    var list := h.children(cid).value;
    var s1 := s.(visited := s.visited + {cid}, enumerated := s.enumerated + [cid]);
    forall i | depth + 1 <= i < |path|
      ensures path[i] !in s1.visited
    {
      assert path[depth] != path[i];
    }
    var u := Visit(h, max, list[0], depth, s1);
    if depth + 1 < max.depth {
      WalkGoesAlong(g, max, root, path, depth + 1, s1);
    }
    assert MaxDepthReached in u.warnings;
    EachGrows(h, max, list[1..], depth, u);
  }

  /**
   The depth bound exactly: no order of the listings has the crawl refuse a
   directory for its depth if and only if no directory path without repetition has
   `max.depth` links.
   */
  lemma NeverTooDeepIff(g: Graph, max: Limits, root: Cid)
    requires 0 < max.depth && 0 < max.docs
    ensures (forall h :: Relisted(g, h) ==> !TooDeep(h, max, root)) <==>
            (forall path :: SimplePath(g, root, path) ==> |path| <= max.depth)
  {
    if forall path :: SimplePath(g, root, path) ==> |path| <= max.depth {
      forall h | Relisted(g, h)
        ensures !TooDeep(h, max, root)
      {
        forall path | SimplePath(h, root, path)
          ensures |path| <= max.depth
        {
          RelistedPaths(g, h, root, path);
        }
        WalkShallow(h, max, root, [root], 0, START);
      }
    } else {
      var path :| SimplePath(g, root, path) && |path| > max.depth;
      var cut := path[..max.depth + 1];
      assert SimplePath(g, root, cut);
      AlongRelists(g, cut);
      WalkGoesAlong(g, max, root, cut, 0, START);
      assert TooDeep(Along(g, cut), max, root);
    }
  }

  // ---- What a name says ----

  predicate Simple(tail: string) {
    forall i :: 0 <= i < |tail| ==> tail[i] != '.' && tail[i] != '/'
  }

  /** The extension runs from the last dot, if no slash follows it. */
  lemma {:induction false} ExtIs(stem: string, tail: string)
    requires Simple(tail)
    ensures Ext(stem + "." + tail) == "." + tail
  {
    var n := stem + "." + tail;
    if tail == "" {
      assert n[|n| - 1] == '.';
    } else {
      ExtIs(stem, tail[..|tail| - 1]);
      assert n[..|n| - 1] == stem + "." + tail[..|tail| - 1];
      assert n[|n| - 1] == tail[|tail| - 1];
    }
  }

  lemma {:induction false} NoExt(n: string)
    requires forall i :: 0 <= i < |n| && n[i] == '.' ==> exists j :: i < j < |n| && n[j] == '/'
    ensures Ext(n) == ""
  {
    if n != "" && n[|n| - 1] != '/' {
      var init := n[..|n| - 1];
      forall i | 0 <= i < |init| && init[i] == '.'
        ensures exists j :: i < j < |init| && init[j] == '/'
      {
        assert n[i] == '.';
        var j :| i < j < |n| && n[j] == '/';
        assert init[j] == '/';
      }
      NoExt(init);
    }
  }

  /**
   Case and surrounding space aside: a name ending in ".pdf" is a PDF, one with an
   extension of the list is skipped, and one with another extension or none is probed.
   */
  lemma NameDecides(name: string, stem: string, tail: string)
    ensures Text.Normal(name) == stem + ".pdf" ==> ClassifyByName(name) == Pdf
    ensures Text.Normal(name) == stem + "." + tail && "." + tail in NON_PDF_EXT ==> ClassifyByName(name) == Other
    ensures Text.Normal(name) == stem + "." + tail && Simple(tail) && "." + tail !in NON_PDF_EXT + {".pdf"} ==>
              ClassifyByName(name) == Unknown
    ensures (forall i :: 0 <= i < |Text.Normal(name)| && Text.Normal(name)[i] == '.' ==>
               exists j :: i < j < |Text.Normal(name)| && Text.Normal(name)[j] == '/')
            ==> ClassifyByName(name) == Unknown
  {
    var n := Text.Normal(name);
    if n == stem + "." + tail && Simple(tail) && "." + tail !in NON_PDF_EXT + {".pdf"} {
      ExtIs(stem, tail);
      if Text.HasSuffix(n, ".pdf") {
        PdfEndsInPdf(n);
      }
    }
    if n == stem + "." + tail && "." + tail in NON_PDF_EXT {
      ListedExtensionsAreSimple(tail);
      ExtIs(stem, tail);
      if Text.HasSuffix(n, ".pdf") {
        PdfEndsInPdf(n);
      }
    }
    if forall i :: 0 <= i < |n| && n[i] == '.' ==> exists j :: i < j < |n| && n[j] == '/' {
      NoExt(n);
      if Text.HasSuffix(n, ".pdf") {
        PdfEndsInPdf(n);
      }
    }
  }

  /** An entry is probed if its name does not decide, and not otherwise. */
  lemma EntryIsNamedOrProbed(gw: Gateway, name: string, cid: Cid, stem: string, tail: string)
    requires Text.Normal(name) == stem + "." + tail && Simple(tail)
    ensures EntryKind(gw, Child(name, cid)) ==
            if tail == "pdf" then Some(Pdf) else if "." + tail in NON_PDF_EXT then Some(Other) else gw.classify(cid)
  {
    NameDecides(name, stem, tail);
    assert ("." + tail)[1..] == tail && ".pdf"[1..] == "pdf";
    assert tail == "pdf" ==> stem + "." + tail == stem + ".pdf";
  }

  lemma ListedExtensionsAreSimple(tail: string)
    requires "." + tail in NON_PDF_EXT
    ensures Simple(tail) && tail != "pdf"
  {
    var e := "." + tail;
    assert tail == e[1..];
  }

  lemma PdfEndsInPdf(n: string)
    requires Text.HasSuffix(n, ".pdf")
    ensures Ext(n) == ".pdf"
  {
    ExtIs(n[..|n| - 4], "pdf");
    assert n == n[..|n| - 4] + "." + "pdf";
  }

  lemma PdfNameIsPdf(gw: Gateway, c: Cid)
    ensures EntryKind(gw, Child("a.pdf", c)) == Some(Pdf)
  {
    assert Text.Lower("a.pdf") == "a.pdf";
  }

  /** The exception is real: a directory that lists itself under a PDF name is reachable as a PDF and not returned. */
  lemma ClashLosesPdf(root: Cid)
    ensures var ch := Child("a.pdf", root);
            var g := GraphOf(Gateway((c: Cid) => Some([ch]), (c: Cid) => Some(Dir)));
            var s := Walk(g, Limits(DEFAULT_MAX_DEPTH, DEFAULT_MAX_DOCS), root, 0, START);
            s.warnings == {} && s.order == [] && ReachablePdf(g, root, root)
  {
    var ch := Child("a.pdf", root);
    var gw := Gateway((c: Cid) => Some([ch]), (c: Cid) => Some(Dir));
    PdfNameIsPdf(gw, root);
    var g := GraphOf(gw);
    assert g.kind(ch) == Some(Pdf);
    assert g.children(root) == Some([ch]);
    assert ch in g.children(root).value;
    assert HasEntry(g, root, root, Pdf);
    assert DirAt(g, root, root, 0);
    assert ReachableDir(g, root, root);
    var max := Limits(DEFAULT_MAX_DEPTH, DEFAULT_MAX_DOCS);
    var s1 := START.(visited := START.visited + {root}, enumerated := START.enumerated + [root]);
    assert Visit(g, max, ch, 0, s1) == s1;
    assert Each(g, max, [ch], 0, s1) == s1;
  }

  /** Four directories: `r` lists `x` and `y`, `x` lists `y`, `y` lists `z`, and `z` lists the document `p`. */
  function Detour(r: Cid, x: Cid, y: Cid, z: Cid, p: Cid): Graph {
    Graph(
      (c: Cid) => if c == r then Some([Child("x", x), Child("y", y)])
                  else if c == x then Some([Child("y", y)])
                  else if c == y then Some([Child("z", z)])
                  else Some([Child("p", p)]),
      (ch: Child) => if ch.cid == p then Some(Pdf) else Some(Dir))
  }

  /**
   Within the depth bound is not enough. Depth first, `y` is reached by way of
   `x` at the last depth allowed, so `z` is refused; the shorter way to `y` finds
   it visited, and `p` is missed two links from the root. Hence completeness
   asks that no depth warning was logged.
   */
  lemma DetourHidesPdf(r: Cid, x: Cid, y: Cid, z: Cid, p: Cid)
    requires Distinct([r, x, y, z, p])
    ensures var g := Detour(r, x, y, z, p);
            var s := Walk(g, Limits(3, DEFAULT_MAX_DOCS), r, 0, START);
            PdfWithin(g, r, p, 3) && s.order == [] && s.warnings == {MaxDepthReached}
  {
    var g, max := Detour(r, x, y, z, p), Limits(3, DEFAULT_MAX_DOCS);
    var all := [r, x, y, z, p];
    assert all[0] == r && all[1] == x && all[2] == y && all[3] == z && all[4] == p;
    assert PdfWithin(g, r, p, 3) by {
      assert g.children(r).value[1] == Child("y", y);
      assert g.children(y).value[0] == Child("z", z);
      assert g.children(z).value[0] == Child("p", p);
      assert DirAt(g, r, r, 0) && HasEntry(g, r, y, Dir);
      assert DirAt(g, r, y, 1) && HasEntry(g, y, z, Dir);
      assert DirAt(g, r, z, 2) && HasEntry(g, z, p, Pdf);
    }
    var atR := Trail({r}, [], [r], {});
    var atX := Trail({r, x}, [], [r, x], {});
    var atY := Trail({r, x, y}, [], [r, x, y], {});
    var end := atY.(warnings := {MaxDepthReached});
    assert Each(g, max, [Child("z", z)], 2, atY) == end;
    assert Walk(g, max, y, 2, atX) == end;
    assert Each(g, max, [Child("y", y)], 1, atX) == end;
    assert atR.(visited := atR.visited + {x}, enumerated := atR.enumerated + [x]) == atX;
    assert g.children(x) == Some([Child("y", y)]);
    assert Walk(g, max, x, 1, atR) == end;
    var rest := [Child("y", y)];
    assert Each(g, max, rest, 0, end) == end;
    assert Each(g, max, [Child("x", x)] + rest, 0, atR) == end;
    assert [Child("x", x)] + rest == [Child("x", x), Child("y", y)];
    assert g.children(r) == Some([Child("x", x)] + rest);
    assert START.(visited := START.visited + {r}, enumerated := START.enumerated + [r]) == atR;
    assert Walk(g, max, r, 0, START) == end;
  }

  // ---- The document cap ----

  /** The capped walk either sees the same as the uncapped one or stops with its first `m` documents. */
  ghost predicate CutAt(m: nat, capped: Trail, free: Trail) {
    if |free.order| < m then capped == free else capped.order == free.order[..m]
  }

  lemma {:induction false} WalkCut(g: Graph, max: Limits, m: nat, cid: Cid, depth: nat, s: Trail)
    requires depth < max.depth && m <= max.docs && |s.order| <= m
    ensures CutAt(m, Walk(g, max.(docs := m), cid, depth, s), Walk(g, max, cid, depth, s))
    decreases max.depth - depth, 2, 0
  {
    WalkGrows(g, max, cid, depth, s);
    if |s.order| < m && cid !in s.visited && g.children(cid).Some? {
      EachCut(g, max, m, g.children(cid).value, depth,
              s.(visited := s.visited + {cid}, enumerated := s.enumerated + [cid]));
    }
  }

  lemma {:induction false} EachCut(g: Graph, max: Limits, m: nat, children: seq<Child>, depth: nat, s: Trail)
    requires depth < max.depth && m <= max.docs && |s.order| <= m
    ensures CutAt(m, Each(g, max.(docs := m), children, depth, s), Each(g, max, children, depth, s))
    decreases max.depth - depth, 1, |children|
  {
    EachGrows(g, max, children, depth, s);
    if children != [] && |s.order| < m {
      VisitCut(g, max, m, children[0], depth, s);
      var capped, free := Visit(g, max.(docs := m), children[0], depth, s), Visit(g, max, children[0], depth, s);
      EachGrows(g, max, children[1..], depth, free);
      if |free.order| < m {
        EachCut(g, max, m, children[1..], depth, free);
      } else {
        assert Each(g, max.(docs := m), children[1..], depth, capped).order == capped.order;
      }
    }
  }

  lemma {:induction false} VisitCut(g: Graph, max: Limits, m: nat, ch: Child, depth: nat, s: Trail)
    requires depth < max.depth && m <= max.docs && |s.order| < m
    ensures CutAt(m, Visit(g, max.(docs := m), ch, depth, s), Visit(g, max, ch, depth, s))
    decreases max.depth - depth, 0, 0
  {
    if ch.cid !in s.visited && g.kind(ch) == Some(Dir) && depth + 1 < max.depth {
      WalkCut(g, max, m, ch.cid, depth + 1, s);
    }
  }

  /** A smaller document cap returns a prefix of what a larger one returns, cut at the cap. */
  lemma CapTruncates(g: Graph, max: Limits, m: nat, root: Cid)
    requires 0 < max.depth && m <= max.docs
    ensures var free := Walk(g, max, root, 0, START).order;
            Walk(g, max.(docs := m), root, 0, START).order == free[..if m < |free| then m else |free|]
  {
    WalkCut(g, max, m, root, 0, START);
  }
}
