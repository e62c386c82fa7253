/** What the invariant says about counts, deduplication and blob names, in every reachable state. */
module Accounting {
  import opened Paths
  import opened Store
  import opened Handlers
  import opened Invariants
  import opened Steps
  import opened Confinement

  // ----- Sums and distinct contents

  /** The sum of numowners over the given rows. */
  ghost function OwnersTotal(filedata: map<string, FileRow>, rows: set<string>): int
    requires rows <= filedata.Keys
  {
    if rows == {} then 0
    else
      var f :| f in rows;
      filedata[f].numowners + OwnersTotal(filedata, rows - {f})
  }

  /** The owner links to any of the given files. */
  function LinksInto(tree: map<Path, Node>, files: set<string>): set<Path> {
    set p | p in tree && tree[p].Link? && !InShared(p) && tree[p].target in files
  }

  function OwnerLinks(tree: map<Path, Node>): set<Path> {
    set p | p in tree && tree[p].Link? && !InShared(p)
  }

  /** The contents owners can read. */
  function OwnedContents(s: State): set<Bytes> {
    set p | p in OwnerLinks(s.tree) && p in s.tree && s.tree[p].Link? && s.tree[p].target in s.blobs :: s.blobs[s.tree[p].target]
  }

  lemma {:induction false} TotalIsLinks(s: State, rows: set<string>)
    requires FilesOk(s) && rows <= s.filedata.Keys
    ensures OwnersTotal(s.filedata, rows) == |LinksInto(s.tree, rows)|
  {
    if rows == {} {
      assert LinksInto(s.tree, rows) == {};
    } else {
      var f :| f in rows && OwnersTotal(s.filedata, rows) == s.filedata[f].numowners + OwnersTotal(s.filedata, rows - {f});
      TotalIsLinks(s, rows - {f});
      assert RowOk(s, f);
      assert LinksInto(s.tree, rows) == LinksInto(s.tree, rows - {f}) + Owners(s.tree, f);
      assert LinksInto(s.tree, rows - {f}) !! Owners(s.tree, f);
    }
  }

  /** The stored bodies of the given rows. */
  function BodiesOf(s: State, rows: set<string>): set<Bytes> {
    set f | f in rows && f in s.blobs :: s.blobs[f]
  }

  lemma {:induction false} DistinctBodies(s: State, rows: set<string>)
    requires FilesOk(s) && rows <= s.filedata.Keys
    ensures |BodiesOf(s, rows)| == |rows|
    decreases |rows|
  {
    if rows == {} {
      assert BodiesOf(s, rows) == {};
    } else {
      var f :| f in rows;
      DistinctBodies(s, rows - {f});
      assert RowOk(s, f);
      assert BodiesOf(s, rows) == BodiesOf(s, rows - {f}) + {s.blobs[f]};
      forall g | g in rows - {f} && g in s.blobs ensures s.blobs[g] != s.blobs[f] {
        assert RowOk(s, g);
        assert HashesApart(s.filedata, f, g);
      }
    }
  }

  lemma OwnedAreStored(s: State)
    requires FilesOk(s)
    ensures OwnedContents(s) == BodiesOf(s, s.filedata.Keys)
  {
    forall f | f in s.filedata ensures f in s.blobs && s.blobs[f] in OwnedContents(s) {
      assert RowOk(s, f);
      assert Owners(s.tree, f) != {};
      var p :| p in Owners(s.tree, f);
      assert p in OwnerLinks(s.tree);
    }
    forall p | p in OwnerLinks(s.tree) ensures s.tree[p].target in s.filedata {
      LinkRow(s, p);
    }
  }

  /** Deduplication is complete: there are as many rows as distinct contents among the owner links,
      and the counts add up to the number of owner links. */
  lemma DedupComplete(s: State)
    requires Valid(s)
    ensures |s.filedata| == |OwnedContents(s)|
    ensures OwnersTotal(s.filedata, s.filedata.Keys) == |OwnerLinks(s.tree)|
  {
    var rows := s.filedata.Keys;
    TotalIsLinks(s, rows);
    forall p | p in OwnerLinks(s.tree) ensures p in LinksInto(s.tree, rows) {
      LinkRow(s, p);
    }
    assert OwnerLinks(s.tree) == LinksInto(s.tree, rows);
    DistinctBodies(s, rows);
    OwnedAreStored(s);
    assert |rows| == |s.filedata|;
  }

  // ----- Blobs

  /** No link dangles, a file is stored exactly while somebody owns it, and the file store holds
      nothing else but possibly the one stray under the next name. */
  lemma ReclaimedExactly(s: State)
    requires Valid(s)
    ensures forall p | p in s.tree && s.tree[p].Link? :: s.tree[p].target in s.blobs && s.tree[p].target in s.filedata
    ensures forall f :: f in s.filedata <==> Owners(s.tree, f) != {}
    ensures s.filedata.Keys <= s.blobs.Keys <= s.filedata.Keys + {FileName(s.filecount)}
    ensures forall f, g | f in s.filedata && g in s.filedata && s.blobs[f] == s.blobs[g] :: f == g
  {
    forall p | p in s.tree && s.tree[p].Link? ensures s.tree[p].target in s.blobs && s.tree[p].target in s.filedata {
      LinkRow(s, p);
    }
    forall f ensures f in s.filedata <==> Owners(s.tree, f) != {} {
      assert f in s.filedata ==> RowOk(s, f);
      forall p | p in Owners(s.tree, f) ensures f in s.filedata {
        LinkRow(s, p);
      }
    }
    forall f, g | f in s.filedata && g in s.filedata && s.blobs[f] == s.blobs[g] ensures f == g {
      assert RowOk(s, f) && RowOk(s, g);
      assert HashesApart(s.filedata, f, g);
    }
    forall f | f in s.filedata ensures f in s.blobs {
      assert RowOk(s, f);
    }
  }

  /** The name the next fresh blob is written to belongs to no row and no link: writing it overwrites
      nothing that is referenced. */
  lemma NextBlobUnreferenced(s: State)
    requires Valid(s)
    ensures FileName(s.filecount) !in s.filedata
    ensures forall p | p in s.tree && s.tree[p].Link? :: s.tree[p].target != FileName(s.filecount)
    ensures forall f <- s.filedata :: exists k :: 1 <= k < s.filecount && f == FileName(k)
  {
    NextNameFresh(s.filecount);
    assert FileName(s.filecount) in s.filedata ==> RowOk(s, FileName(s.filecount));
    forall p | p in s.tree && s.tree[p].Link? ensures s.tree[p].target != FileName(s.filecount) {
      LinkRow(s, p);
    }
    forall f <- s.filedata ensures exists k :: 1 <= k < s.filecount && f == FileName(k) {
      assert RowOk(s, f);
    }
  }

  lemma UploadedCounter(s: State, p: Path, u: Name, body: Bytes)
    ensures s.filecount <= Uploaded(s, p, u, body).0.filecount <= s.filecount + 1
  {
  }

  lemma SharerUploadedCounter(s: State, u: Name, p: Path, body: Bytes)
    ensures s.filecount <= SharerUploaded(s, u, p, body).filecount <= s.filecount + 1
  {
    UploadedCounter(s.(tree := s.tree - ShareesOf(s.sharedata, u, p)), p, u, body);
  }

  lemma UploadCounter(s: State, u: Name, p: Path, body: Bytes)
    ensures s.filecount <= UploadStep(s, u, p, body).0.filecount <= s.filecount + 1
  {
    UploadedCounter(s, p, u, body);
    SharerUploadedCounter(s, u, p, body);
    if p in s.sharedata {
      SharerUploadedCounter(s, s.sharedata[p].sharer, s.sharedata[p].origpath, body);
    }
  }

  lemma RemoveCounter(s: State, u: Name, p: Path)
    ensures RemoveStep(s, u, p).0.filecount == s.filecount
  {
  }

  lemma ShareCounter(s: State, u: Name, p: Path, sharee: Name, perm: string)
    ensures ShareStep(s, u, p, sharee, perm).0.filecount == s.filecount
    ensures UnshareStep(s, u, p, sharee).0.filecount == s.filecount
    ensures ChpermStep(s, u, p, sharee, perm).0.filecount == s.filecount
  {
  }

  lemma StepCounter(s: State, op: Op)
    ensures s.filecount <= Step(s, op).0.filecount <= s.filecount + 1
    ensures Step(s, op).0.filecount != s.filecount ==> op.Upload?
  {
    match op
    case Signup(username, password) =>
    case Mkdir(u, p) =>
    case Upload(u, p, body) => UploadCounter(s, u, p, body);
    case Remove(u, p) => RemoveCounter(s, u, p);
    case Share(u, p, sharee, perm) => ShareCounter(s, u, p, sharee, perm);
    case Unshare(u, p, sharee) => ShareCounter(s, u, p, sharee, "");
    case Chperm(u, p, sharee, perm) => ShareCounter(s, u, p, sharee, perm);
  }

  /** The counter never goes back, so no name is handed out twice in a run. */
  lemma {:induction false} RunCounter(s: State, ops: seq<Op>)
    ensures s.filecount <= Run(s, ops).filecount <= s.filecount + |ops|
    decreases |ops|
  {
    if ops != [] {
      var n := |ops| - 1;
      RunCounter(s, ops[..n]);
      StepCounter(Run(s, ops[..n]), ops[n]);
    }
  }

  // ----- Shares

  /** The links under Shared_with_me are exactly the shareepaths of the table, nothing is shared from
      there, and (sharer, sharee, origpath) names at most one row. */
  lemma SharesOneLevelDeep(s: State)
    requires Valid(s)
    ensures forall p | p in s.tree && s.tree[p].Link? :: InShared(p) <==> p in s.sharedata
    ensures forall k | k in s.sharedata :: s.sharedata[k].origpath !in s.sharedata && !InShared(s.sharedata[k].origpath)
    ensures forall u, v, p :: |Matching(s.sharedata, u, v, p)| <= 1
  {
    forall p | p in s.tree && s.tree[p].Link? ensures InShared(p) <==> p in s.sharedata {
      assert InShared(p) ==> Coherent(s, p);
      assert p in s.sharedata ==> ShareRowOk(s, p);
    }
    forall k | k in s.sharedata ensures s.sharedata[k].origpath !in s.sharedata && !InShared(s.sharedata[k].origpath) {
      OriginsApart(s, k);
      assert ShareRowOk(s, k);
    }
    forall u, v, p ensures |Matching(s.sharedata, u, v, p)| <= 1 {
      MatchingAtMostOne(s, u, v, p);
    }
  }

  /** Between handlers, a sharee's link and the owner's link lead to the same stored file. */
  lemma SharesCoherent(s: State, k: Path)
    requires Valid(s) && k in s.sharedata
    ensures k in s.tree && s.tree[k].Link? && s.sharedata[k].origpath in s.tree
    ensures s.tree[k] == s.tree[s.sharedata[k].origpath] && s.tree[k].target in s.filedata && s.tree[k].target in s.blobs
  {
    assert Coherent(s, k);
    LinkRow(s, k);
  }

  /** The state after any run from the freshly initialized server that keeps the invariant throughout. */
  lemma EveryRunAccounts(ops: seq<Op>)
    requires KeepsThroughout(INITIAL, ops)
    ensures var s := Run(INITIAL, ops);
            && |s.filedata| == |OwnedContents(s)|
            && OwnersTotal(s.filedata, s.filedata.Keys) == |OwnerLinks(s.tree)|
            && (forall f :: f in s.filedata <==> Owners(s.tree, f) != {})
            && (forall f | f in s.filedata :: s.filedata[f].numowners == |Owners(s.tree, f)|)
            && FileName(s.filecount) !in s.filedata
  {
    InitialValid();
    RunKeepsValidThroughout(INITIAL, ops);
    var s := Run(INITIAL, ops);
    DedupComplete(s);
    ReclaimedExactly(s);
    NextBlobUnreferenced(s);
    forall f | f in s.filedata ensures s.filedata[f].numowners == |Owners(s.tree, f)| {
      assert RowOk(s, f);
    }
  }
}
