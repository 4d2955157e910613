/**
 The index database as a value, and every write transaction as a function on it.

 `archive_docs` is kept as one list per archive: the rows of an archive in
 `position` order. Times are left out.
 */
module Schema {
  import opened Seqs
  import opened Ranking
  import Text

  type Cid = string

  const MAX_RETRIES: nat := 3
  const TOP_KEYWORDS: nat := 12
  const SKIP_REASON := "skipped: not a PDF"

  /** What the pipeline extracts from one document. */
  datatype Body = Body(title: string, broadField: string, subTopic: string, keywords: seq<string>)

  datatype DocRow = DocRow(rowid: nat, body: Body)

  datatype FtsRow = FtsRow(cid: Cid, title: string, broadField: string, subTopic: string, words: string)

  datatype Failure = Failure(count: nat, reason: string)

  datatype Status = Queued | Crawling | Indexing | Done | Failed

  datatype Archive = Archive(
    name: string, owner: string, status: Status, docCount: nat, indexed: nat, failed: nat,
    topKeywords: seq<string>, broadFields: seq<FieldCount>, error: string)

  datatype Db = Db(
    documents: map<Cid, DocRow>,
    fts: map<nat, FtsRow>,
    labels: set<(string, Cid)>,
    failures: map<Cid, Failure>,
    archives: map<Cid, Archive>,
    members: map<Cid, seq<Cid>>)

  // ---- Queries ----

  function Members(t: Db, a: Cid): seq<Cid> {
    if a in t.members then t.members[a] else []
  }

  function PermFailed(t: Db): set<Cid> {
    set c | c in t.failures && t.failures[c].count >= MAX_RETRIES
  }

  /** CIDs the dispatcher has nothing left to do for. */
  function Settled(t: Db): set<Cid> {
    t.documents.Keys + PermFailed(t)
  }

  function PendingOf(t: Db, docs: seq<Cid>): seq<Cid> {
    Minus(docs, Settled(t))
  }

  function Resumable(t: Db): set<Cid> {
    set a | a in t.archives && t.archives[a].status in {Queued, Crawling, Indexing}
  }

  // ---- Documents ----

  function JoinWords(words: seq<string>): string {
    if words == [] then "" else if |words| == 1 then words[0] else words[0] + " " + JoinWords(words[1..])
  }

  function FtsOf(c: Cid, b: Body): FtsRow {
    FtsRow(c, b.title, b.broadField, b.subTopic, JoinWords(b.keywords))
  }

  function LabelSources(b: Body): seq<string> {
    b.keywords + [b.broadField, b.subTopic]
  }

  function Labels(b: Body): set<string> {
    set s | s in LabelSources(b) && Text.Normal(s) != "" :: Text.Normal(s)
  }

  /** `rowid` is the one SQLite picks when `c` has no row yet. */
  function AddTx(t: Db, c: Cid, b: Body, rowid: nat): Db {
    var r := if c in t.documents then t.documents[c].rowid else rowid;
    t.(documents := t.documents[c := DocRow(r, b)],
       fts := t.fts[r := FtsOf(c, b)],
       labels := (set p | p in t.labels && p.1 != c) + (set l | l in Labels(b) :: (l, c)),
       failures := t.failures - {c})
  }

  ghost predicate FreshRowid(t: Db, c: Cid, rowid: nat) {
    c !in t.documents ==> forall d :: d in t.documents ==> t.documents[d].rowid != rowid
  }

  /** The row id SQLite gives a new row: one above the largest in use. */
  method NextRowid(rows: map<Cid, DocRow>) returns (r: nat)
    ensures forall c :: c in rows ==> rows[c].rowid < r
  {
    r := 0;
    var left := rows.Keys;
    while left != {}
      invariant left <= rows.Keys
      invariant forall c :: c in rows && c !in left ==> rows[c].rowid < r
    {
      var c :| c in left;
      r := if rows[c].rowid < r then r else rows[c].rowid + 1;
      left := left - {c};
    }
  }

  function FailTx(t: Db, c: Cid, reason: string): Db {
    var count := if c in t.failures then t.failures[c].count else 0;
    t.(failures := t.failures[c := Failure(count + 1, reason)])
  }

  function SkipTx(t: Db, c: Cid): Db {
    t.(failures := t.failures[c := Failure(MAX_RETRIES, SKIP_REASON)])
  }

  function RetryTx(t: Db, c: Cid): Db {
    t.(failures := t.failures - {c})
  }

  function RequeueTx(t: Db): Db {
    t.(failures := map c | c in t.failures && !Text.MentionsRateLimit(t.failures[c].reason) :: t.failures[c])
  }

  // ---- Archives ----

  const BLANK := Archive("", "", Queued, 0, 0, 0, [], [], "")

  /** `owner` comes trimmed. */
  function AddArchiveTx(t: Db, a: Cid, owner: string): Db {
    if a !in t.archives then t.(archives := t.archives[a := BLANK.(owner := owner)])
    else if owner != "" then t.(archives := t.archives[a := t.archives[a].(owner := owner)])
    else t
  }

  function CrawlingTx(t: Db, a: Cid): Db {
    if a in t.archives then t.(archives := t.archives[a := t.archives[a].(status := Crawling)]) else t
  }

  function FailedTx(t: Db, a: Cid, reason: string): Db {
    if a in t.archives
    then t.(archives := t.archives[a := t.archives[a].(status := Failed, error := reason)])
    else t
  }

  function SetDocsTx(t: Db, a: Cid, docs: seq<Cid>): Db {
    t.(archives := if a in t.archives
                   then t.archives[a := t.archives[a].(docCount := |docs|, status := Indexing)]
                   else t.archives,
       members := t.members[a := Dedup(docs)])
  }

  // ---- Aggregation ----

  /** The document rows of a member list (the inner join with `documents`). */
  function Bodies(t: Db, docs: seq<Cid>): seq<Body> {
    if docs == [] then []
    else (if docs[0] in t.documents then [t.documents[docs[0]].body] else []) + Bodies(t, docs[1..])
  }

  function NormalWords(words: seq<string>): seq<string> {
    if words == [] then []
    else (if Text.Normal(words[0]) != "" then [Text.Normal(words[0])] else []) + NormalWords(words[1..])
  }

  function KeywordBag(bodies: seq<Body>): multiset<string> {
    if bodies == [] then multiset{} else multiset(NormalWords(bodies[0].keywords)) + KeywordBag(bodies[1..])
  }

  function FieldBag(bodies: seq<Body>): multiset<string> {
    if bodies == [] then multiset{}
    else
      var f := Text.Trim(bodies[0].broadField);
      (if f != "" then multiset{f} else multiset{}) + FieldBag(bodies[1..])
  }

  function Tally(bag: multiset<string>): Counts {
    map w | w in bag :: bag[w]
  }

  datatype Totals = Totals(
    indexed: nat, failed: nat, pending: nat, topKeywords: seq<string>, broadFields: seq<FieldCount>)

  ghost function TotalsOf(bodies: seq<Body>, failed: nat, pending: nat): Totals {
    Totals(|bodies|, failed, pending, Top(Tally(KeywordBag(bodies)), TOP_KEYWORDS), Fields(Tally(FieldBag(bodies))))
  }

  /** What FinalizeArchive reads. */
  ghost function ReadTotals(t: Db, a: Cid): Totals {
    TotalsOf(Bodies(t, Members(t, a)), CountIn(Members(t, a), PermFailed(t)), |PendingOf(t, Members(t, a))|)
  }

  function NameFor(a: Cid, name: string, fields: seq<FieldCount>): string {
    if name != "" then name else if |fields| > 0 then fields[0].field else a
  }

  /** What FinalizeArchive writes. */
  function FinalizeTx(t: Db, a: Cid, n: Totals): Db {
    if a !in t.archives then t
    else
      var row := t.archives[a];
      t.(archives := t.archives[a := row.(
          indexed := n.indexed, failed := n.failed, topKeywords := n.topKeywords, broadFields := n.broadFields,
          status := if n.pending > 0 then Indexing else Done, name := NameFor(a, row.name, n.broadFields))])
  }

  // ---- Deletion ----

  function Shrink(row: Archive, wasIndexed: bool, wasFailed: bool): Archive {
    row.(docCount := if row.docCount > 0 then row.docCount - 1 else 0,
         indexed := if wasIndexed && row.indexed > 0 then row.indexed - 1 else row.indexed,
         failed := if wasFailed && row.failed > 0 then row.failed - 1 else row.failed)
  }

  /** deleteDocumentTx. */
  function DropDocTx(t: Db, c: Cid): Db {
    var idx, fail := c in t.documents, c in PermFailed(t);
    Db(t.documents - {c},
       if idx then t.fts - {t.documents[c].rowid} else t.fts,
       (set p | p in t.labels && p.1 != c),
       t.failures - {c},
       map a | a in t.archives :: if c in Members(t, a) then Shrink(t.archives[a], idx, fail) else t.archives[a],
       map a | a in t.members :: Minus(t.members[a], {c}))
  }

  function DeleteDocumentTx(t: Db, c: Cid): Db {
    if c in t.documents || c in t.failures then DropDocTx(t, c) else t
  }

  /** Members of `a` that no other archive lists. */
  function Exclusive(t: Db, a: Cid): set<Cid> {
    set c | c in Members(t, a) && forall b :: b in t.members && b != a ==> c !in t.members[b]
  }

  function Rowids(t: Db, S: set<Cid>): set<nat> {
    set c | c in S && c in t.documents :: t.documents[c].rowid
  }

  /** The database without archive `a`, said outright rather than document by document. */
  function WithoutArchive(t: Db, a: Cid): Db {
    if a !in t.archives then t
    else
      var gone := Exclusive(t, a);
      Db(t.documents - gone,
         t.fts - Rowids(t, gone),
         (set p | p in t.labels && p.1 !in gone),
         t.failures - gone,
         t.archives - {a},
         t.members - {a})
  }

  // ---- What every reachable database satisfies ----

  /** `documents_fts` mirrors `documents`: a bijection by rowid and by CID, fields equal. */
  ghost predicate Mirrored(t: Db) {
    && (forall c :: c in t.documents ==>
          && t.documents[c].rowid in t.fts
          && t.fts[t.documents[c].rowid] == FtsOf(c, t.documents[c].body))
    && (forall r :: r in t.fts ==>
          && t.fts[r].cid in t.documents
          && t.documents[t.fts[r].cid].rowid == r)
  }

  ghost predicate LabelsExact(t: Db) {
    forall l, c :: (l, c) in t.labels <==> c in t.documents && l in Labels(t.documents[c].body)
  }

  /** No CID is both indexed and recorded as failing. */
  ghost predicate Exclusion(t: Db) {
    t.documents.Keys !! t.failures.Keys
  }

  ghost predicate ListsDistinct(t: Db) {
    forall a :: a in t.members ==> Distinct(t.members[a])
  }

  /** Membership rows belong to registered archives, whose doc_count is their number. */
  ghost predicate Counted(t: Db) {
    && (forall a :: a in t.members && t.members[a] != [] ==> a in t.archives)
    && (forall a :: a in t.archives ==> t.archives[a].docCount == |Members(t, a)|)
  }

  ghost predicate Consistent(t: Db) {
    Mirrored(t) && LabelsExact(t) && Exclusion(t) && ListsDistinct(t)
  }

  ghost predicate Valid(t: Db) {
    Consistent(t) && Counted(t)
  }

  /** The stored counters of `a` are what fillArchiveProgress would recompute. */
  ghost predicate InStep(t: Db, a: Cid) {
    && a in t.archives
    && t.archives[a].indexed == CountIn(Members(t, a), t.documents.Keys)
    && t.archives[a].failed == CountIn(Members(t, a), PermFailed(t))
  }
}
