/** The handlers as sequences of single file and table statements, each decided by what the store holds
    when its turn comes, run under the lock protocol; and any number of such sessions of the server. */
module Microsteps {
  import opened Decimal
  import opened Paths
  import opened Store
  import opened Handlers
  import opened Steps
  import opened Confinement
  import opened Dispatch

  /** One file-system call or one table statement. */
  datatype Effect =
    | AddUser(u: Name)
    | AddUnnamed(username: string)
    | PutEntry(p: Path, n: Node)
    | DropEntry(p: Path)
    | PutBlob(f: string, body: Bytes)
    | DropBlob(f: string)
    | PutRow(f: string, row: FileRow)
    | DropRow(f: string)
    | BumpCounter
    | PutShare(k: Path, share: ShareRow)
    | DropShares(rows: set<Path>)
    | SetPerm(rows: set<Path>, perm: int)

  function Apply(s: State, e: Effect): State {
    match e
    case AddUser(u) => s.(users := s.users + {u})
    case AddUnnamed(username) => s.(unnamed := s.unnamed + {username})
    case PutEntry(p, n) => s.(tree := s.tree[p := n])
    case DropEntry(p) => s.(tree := s.tree - {p})
    case PutBlob(f, body) => s.(blobs := s.blobs[f := body])
    case DropBlob(f) => s.(blobs := s.blobs - {f})
    case PutRow(f, row) => s.(filedata := s.filedata[f := row])
    case DropRow(f) => s.(filedata := s.filedata - {f})
    case BumpCounter => s.(filecount := s.filecount + 1)
    case PutShare(k, share) => s.(sharedata := s.sharedata[k := share])
    case DropShares(rows) => s.(sharedata := s.sharedata - rows)
    case SetPerm(rows, perm) => s.(sharedata := WithPerm(s.sharedata, rows, perm))
  }

  // ----- What is left to do, and how it goes on

  /** A statement, or a piece of code that reads the store and goes on with other jobs. */
  datatype Job =
    | Do(e: Effect)
    | Handle(op: Op)                                    // the tests of a handler
    | MakeRoot(u: Name)                                 // signup: the two directories
    | Helper(p: Path, u: Name, body: Bytes)             // uploadHelper: the prefix test and Stat
    | Delete(p: Path, u: Name)                          // remove: checkpath, Lstat, Readlink
    | Discount(f: string)                               // remove: the count is read and lowered
    | Dedup(p: Path, body: Bytes)                       // uploadHelper: the digest is looked up
    | LinkFresh(p: Path, body: Bytes)                   // uploadHelper: Symlink to the new blob
    | LinkFound(f: string, p: Path)                     // uploadHelper: Symlink to the found blob
    | CountUp(f: string)                                // uploadHelper: the count is read and raised
    | SharerJob(sharer: Name, p: Path, body: Bytes)     // sharerUpload: the sharees are listed
    | RelinkEach(list: seq<Path>, p: Path)              // sharerUpload: Readlink, then the symlinks
    | UnshareEvery(p: Path, u: Name)                    // removeHandler: the sharees are listed
    | Search(u: Name, p: Path, name: Name, sharee: Name, perm: int, i: nat)         // share: is the i-th name free?
    | LinkSharee(u: Name, p: Path, sharee: Name, perm: int, k: Path)             // share: Symlink at the free place

  ghost function Listing(places: set<Path>): (list: seq<Path>)
    ensures forall k :: k in list <==> k in places
  {
    if places == {} then []
    else
      var k :| k in places;
      [k] + Listing(places - {k})
  }

  function DropEach(list: seq<Path>): seq<Job> {
    if list == [] then [] else [Do(DropEntry(list[0]))] + DropEach(list[1..])
  }

  function LinkEach(list: seq<Path>, n: Node): seq<Job> {
    if list == [] then [] else [Do(PutEntry(list[0], n))] + LinkEach(list[1..], n)
  }

  function UnshareEach(list: seq<Path>): seq<Job> {
    if list == [] then [] else [Do(DropEntry(list[0])), Do(DropShares({list[0]}))] + UnshareEach(list[1..])
  }

  function ExpandSignup(s: State, username: string, password: string): seq<Job> {
    if (IsName(username) && username in s.users) || username in s.unnamed || |password| < 6 || '/' in username then []
    else if !NamesDir(username) then [Do(AddUnnamed(username))]
    else [Do(AddUser(username)), MakeRoot(username)]
  }

  function ExpandUpload(s: State, u: Name, p: Path, body: Bytes): seq<Job> {
    if u !in s.users || !Allowed(p, u) then []
    else match IsSharedFile(s.sharedata, p)
      case Unshared => [Helper(p, u, body)]
      case AsSharer => [SharerJob(u, p, body)]
      case AsSharee =>
        if p !in s.sharedata || s.sharedata[p].sharee != u || s.sharedata[p].perm == 0 then []
        else [SharerJob(s.sharedata[p].sharer, s.sharedata[p].origpath, body)]
  }

  function ExpandRemove(s: State, u: Name, p: Path): seq<Job> {
    if u !in s.users || !Allowed(p, u) || Stat(s.tree, s.blobs, p).Missing? then []
    else match IsSharedFile(s.sharedata, p)
      case Unshared => [Delete(p, u)]
      case AsSharee =>
        if !CanRemove(KindsOf(s.tree), p) then []
        else if p in s.sharedata && s.sharedata[p].sharee == u then [Do(DropEntry(p)), Do(DropShares({p}))]
        else [Do(DropEntry(p))]
      case AsSharer => [UnshareEvery(p, u), Delete(p, u)]
  }

  function ExpandShare(s: State, u: Name, p: Path, sharee: Name, perm: string): seq<Job> {
    if ShareTests(s, u, p, sharee, perm).Some? then []
    else [Search(u, p, BaseName(p), sharee, PermOf(perm).value, 0)]
  }

  ghost function ExpandUnshare(s: State, u: Name, p: Path, sharee: Name): seq<Job> {
    var rows := Matching(s.sharedata, u, sharee, p);
    if u !in s.users || !Allowed(p, u) || u == sharee || !HasRow(s.users, s.unnamed, sharee) || |rows| != 1 then []
    else
      var k :| k in rows;
      if CanRemove(KindsOf(s.tree), k) then [Do(DropEntry(k)), Do(DropShares(rows))] else []
  }

  function ExpandChperm(s: State, u: Name, p: Path, sharee: Name, perm: string): seq<Job> {
    var rows := Matching(s.sharedata, u, sharee, p);
    if u !in s.users || !Allowed(p, u) || Reserved(p, u) || Stat(s.tree, s.blobs, p).Missing? || |rows| == 0 || PermOf(perm).None?
    then []
    else [Do(SetPerm(rows, PermOf(perm).value))]
  }

  ghost function ExpandHandler(s: State, op: Op): seq<Job> {
    match op
    case Signup(username, password) => ExpandSignup(s, username, password)
    case Mkdir(u, p) =>
      if u in s.users && Allowed(p, u) && CanCreate(KindsOf(s.tree), p) then [Do(PutEntry(p, Dir))] else []
    case Upload(u, p, body) => ExpandUpload(s, u, p, body)
    case Remove(u, p) => ExpandRemove(s, u, p)
    case Share(u, p, sharee, perm) => ExpandShare(s, u, p, sharee, perm)
    case Unshare(u, p, sharee) => ExpandUnshare(s, u, p, sharee)
    case Chperm(u, p, sharee, perm) => ExpandChperm(s, u, p, sharee, perm)
  }

  function ExpandDelete(s: State, p: Path, u: Name): seq<Job> {
    if !Allowed(p, u) || !Lstat(s.tree, s.blobs, p).Here? || p !in s.tree then []
    else if s.tree[p].Link? then [Do(DropEntry(p)), Discount(s.tree[p].target)]
    else if p == SharedDir(u) || !EmptyDir(KindsOf(s.tree), p) then []
    else [Do(DropEntry(p))]
  }

  function ExpandDiscount(s: State, f: string): seq<Job> {
    var left := (if f in s.filedata then s.filedata[f].numowners else 0) - 1;
    if left > 0 then [Do(PutRow(f, s.filedata[f].(numowners := left)))]
    else if f in s.blobs then [Do(DropBlob(f)), Do(DropRow(f))]
    else []
  }

  ghost function ExpandDedup(s: State, p: Path, body: Bytes): seq<Job> {
    match ByHash(s.filedata, Hash(body))
    case None => [Do(PutBlob(FileName(s.filecount), body)), LinkFresh(p, body)]
    case Some(f) => [LinkFound(f, p)]
  }

  function ExpandLinkFresh(s: State, p: Path, body: Bytes): seq<Job> {
    var f := FileName(s.filecount);
    if CanCreate(KindsOf(s.tree), p)
    then [Do(PutEntry(p, Link(f))), Do(PutRow(f, FileRow(Hash(body), 1))), Do(BumpCounter)]
    else []
  }

  /** The jobs a job goes on with, as the store is when its turn comes. */
  ghost function Expand(s: State, j: Job): seq<Job>
    requires !j.Do?
  {
    match j
    case Handle(op) => ExpandHandler(s, op)
    case MakeRoot(u) =>
      if Root(u) in s.tree then [] else [Do(PutEntry(Root(u), Dir)), Do(PutEntry(SharedDir(u), Dir))]
    case Helper(p, u, body) =>
      if Reserved(p, u) then []
      else if Stat(s.tree, s.blobs, p).Here? then [Delete(p, u), Dedup(p, body)]
      else [Dedup(p, body)]
    case Delete(p, u) => ExpandDelete(s, p, u)
    case Discount(f) => ExpandDiscount(s, f)
    case Dedup(p, body) => ExpandDedup(s, p, body)
    case LinkFresh(p, body) => ExpandLinkFresh(s, p, body)
    case LinkFound(f, p) => if CanCreate(KindsOf(s.tree), p) then [Do(PutEntry(p, Link(f))), CountUp(f)] else []
    case CountUp(f) => if f in s.filedata then [Do(PutRow(f, s.filedata[f].(numowners := s.filedata[f].numowners + 1)))] else []
    case SharerJob(sharer, p, body) =>
      var list := Listing(ShareesOf(s.sharedata, sharer, p));
      DropEach(list) + [Helper(p, sharer, body), RelinkEach(list, p)]
    case RelinkEach(list, p) => if p in s.tree && s.tree[p].Link? then LinkEach(list, s.tree[p]) else []
    case UnshareEvery(p, u) => UnshareEach(Listing(ShareesOf(s.sharedata, u, p)))
    case Search(u, p, name, sharee, perm, i) =>
      var k := SharedDir(sharee) + [Candidate(name, i)];
      if StatCandidate(s, sharee, name, i).Missing? then [LinkSharee(u, p, sharee, perm, k)]
      else [Search(u, p, name, sharee, perm, i + 1)]
    case LinkSharee(u, p, sharee, perm, k) =>
      if Lookup(KindsOf(s.tree), p) == Here(false) && p in s.tree && CanCreate(KindsOf(s.tree), k)
      then [Do(PutEntry(k, s.tree[p])), Do(PutShare(k, ShareRow(u, sharee, p, perm)))]
      else []
  }

  // ----- What a job amounts to when nothing comes between

  function Discounted(s: State, f: string): State {
    var left := (if f in s.filedata then s.filedata[f].numowners else 0) - 1;
    if left > 0 then s.(filedata := s.filedata[f := s.filedata[f].(numowners := left)])
    else if f in s.blobs then s.(blobs := s.blobs - {f}, filedata := s.filedata - {f})
    else s
  }

  function CountedUp(s: State, f: string): State {
    if f in s.filedata then s.(filedata := s.filedata[f := s.filedata[f].(numowners := s.filedata[f].numowners + 1)]) else s
  }

  function LinkedFresh(s: State, p: Path, body: Bytes): State {
    var f := FileName(s.filecount);
    if CanCreate(KindsOf(s.tree), p)
    then s.(tree := s.tree[p := Link(f)], filedata := s.filedata[f := FileRow(Hash(body), 1)], filecount := s.filecount + 1)
    else s
  }

  ghost function Meaning(s: State, j: Job): State {
    match j
    case Do(e) => Apply(s, e)
    case Handle(op) => Step(s, op).0
    case MakeRoot(u) => if Root(u) in s.tree then s else s.(tree := s.tree[Root(u) := Dir][SharedDir(u) := Dir])
    case Helper(p, u, body) => Uploaded(s, p, u, body).0
    case Delete(p, u) => Removed(s, p, u).0
    case Discount(f) => Discounted(s, f)
    case Dedup(p, body) => Stored(s, p, body).0
    case LinkFresh(p, body) => LinkedFresh(s, p, body)
    case LinkFound(f, p) => if CanCreate(KindsOf(s.tree), p) then CountedUp(s.(tree := s.tree[p := Link(f)]), f) else s
    case CountUp(f) => CountedUp(s, f)
    case SharerJob(sharer, p, body) => SharerUploaded(s, sharer, p, body)
    case RelinkEach(list, p) =>
      if p in s.tree && s.tree[p].Link? then s.(tree := s.tree + LinksTo(Places(list), s.tree[p])) else s
    case UnshareEvery(p, u) =>
      var gone := ShareesOf(s.sharedata, u, p);
      s.(tree := s.tree - gone, sharedata := s.sharedata - gone)
    case Search(u, p, name, sharee, perm, i) =>
      var dir := SharedDir(sharee);
      if CanEnd(s, sharee, name)
      then SharedAt(s, u, p, sharee, perm, dir + [Candidate(name, FirstMissing(s, sharee, name, i))]).0
      else s
    case LinkSharee(u, p, sharee, perm, k) => SharedAt(s, u, p, sharee, perm, k).0
  }

  ghost function MeaningAll(s: State, jobs: seq<Job>): State
    decreases |jobs|
  {
    if jobs == [] then s else MeaningAll(Meaning(s, jobs[0]), jobs[1..])
  }

  lemma {:induction false} MeaningAppend(s: State, a: seq<Job>, b: seq<Job>)
    ensures MeaningAll(s, a + b) == MeaningAll(MeaningAll(s, a), b)
    decreases |a|
  {
    if a == [] {
      assert a + b == b;
    } else {
      assert (a + b)[1..] == a[1..] + b;
      MeaningAppend(Meaning(s, a[0]), a[1..], b);
    }
  }

  lemma Meaning1(s: State, j: Job)
    ensures MeaningAll(s, [j]) == Meaning(s, j)
  {
    assert [j][1..] == [];
  }

  lemma Meaning2(s: State, i: Job, j: Job)
    ensures MeaningAll(s, [i, j]) == Meaning(Meaning(s, i), j)
  {
    assert [i, j][1..] == [j];
    Meaning1(Meaning(s, i), j);
  }

  lemma Meaning3(s: State, i: Job, j: Job, k: Job)
    ensures MeaningAll(s, [i, j, k]) == Meaning(Meaning(Meaning(s, i), j), k)
  {
    assert [i, j, k][1..] == [j, k];
    Meaning2(Meaning(s, i), j, k);
  }

  lemma {:induction false} DropEachAll(s: State, list: seq<Path>)
    ensures MeaningAll(s, DropEach(list)) == s.(tree := s.tree - Places(list))
    decreases |list|
  {
    if list == [] {
      assert s.tree - Places(list) == s.tree;
    } else {
      var js := DropEach(list);
      assert js[1..] == DropEach(list[1..]);
      DropEachAll(Meaning(s, js[0]), list[1..]);
      assert Places(list) == {list[0]} + Places(list[1..]);
      assert s.tree - {list[0]} - Places(list[1..]) == s.tree - Places(list);
    }
  }

  lemma LinkOneFirst(tree: map<Path, Node>, k: Path, rest: set<Path>, n: Node)
    ensures tree[k := n] + LinksTo(rest, n) == tree + LinksTo({k} + rest, n)
  {
  }

  lemma {:induction false} LinkEachAll(s: State, list: seq<Path>, n: Node)
    ensures MeaningAll(s, LinkEach(list, n)) == s.(tree := s.tree + LinksTo(Places(list), n))
    decreases |list|
  {
    if list == [] {
      assert s.tree + LinksTo(Places(list), n) == s.tree;
    } else {
      var js := LinkEach(list, n);
      assert js[1..] == LinkEach(list[1..], n);
      LinkEachAll(Meaning(s, js[0]), list[1..], n);
      assert Places(list) == {list[0]} + Places(list[1..]);
      LinkOneFirst(s.tree, list[0], Places(list[1..]), n);
    }
  }

  lemma {:induction false} UnshareEachAll(s: State, list: seq<Path>)
    ensures MeaningAll(s, UnshareEach(list)) == s.(tree := s.tree - Places(list), sharedata := s.sharedata - Places(list))
    decreases |list|
  {
    if list == [] {
      assert s.tree - Places(list) == s.tree && s.sharedata - Places(list) == s.sharedata;
    } else {
      var k := list[0];
      MeaningAppend(s, [Do(DropEntry(k)), Do(DropShares({k}))], UnshareEach(list[1..]));
      Meaning2(s, Do(DropEntry(k)), Do(DropShares({k})));
      UnshareEachAll(s.(tree := s.tree - {k}, sharedata := s.sharedata - {k}), list[1..]);
      assert Places(list) == {k} + Places(list[1..]);
      assert s.tree - {k} - Places(list[1..]) == s.tree - Places(list);
      assert s.sharedata - {k} - Places(list[1..]) == s.sharedata - Places(list);
    }
  }

  // ----- Each job amounts to the jobs it goes on with

  lemma SignupExpands(s: State, username: string, password: string)
    ensures MeaningAll(s, ExpandSignup(s, username, password)) == SignupStep(s, username, password).0
  {
    if NamesDir(username) {
      Meaning2(s, Do(AddUser(username)), MakeRoot(username));
    } else {
      Meaning1(s, Do(AddUnnamed(username)));
    }
  }

  lemma UploadCases(s: State, u: Name, p: Path, body: Bytes)
    requires u in s.users && Allowed(p, u)
    ensures UploadStep(s, u, p, body).0 ==
              match IsSharedFile(s.sharedata, p)
              case Unshared => Uploaded(s, p, u, body).0
              case AsSharer => SharerUploaded(s, u, p, body)
              case AsSharee =>
                if p !in s.sharedata || s.sharedata[p].sharee != u || s.sharedata[p].perm == 0 then s
                else SharerUploaded(s, s.sharedata[p].sharer, s.sharedata[p].origpath, body)
  {
  }

  lemma HelperAlone(s: State, p: Path, u: Name, body: Bytes)
    ensures MeaningAll(s, [Helper(p, u, body)]) == Uploaded(s, p, u, body).0
  {
    Meaning1(s, Helper(p, u, body));
  }

  lemma SharerJobAlone(s: State, sharer: Name, p: Path, body: Bytes)
    ensures MeaningAll(s, [SharerJob(sharer, p, body)]) == SharerUploaded(s, sharer, p, body)
  {
    Meaning1(s, SharerJob(sharer, p, body));
  }

  lemma UploadExpands(s: State, u: Name, p: Path, body: Bytes)
    ensures MeaningAll(s, ExpandUpload(s, u, p, body)) == UploadStep(s, u, p, body).0
  {
    if u in s.users && Allowed(p, u) {
      UploadCases(s, u, p, body);
      match IsSharedFile(s.sharedata, p)
      case Unshared => HelperAlone(s, p, u, body);
      case AsSharer => SharerJobAlone(s, u, p, body);
      case AsSharee =>
        if p in s.sharedata {
          SharerJobAlone(s, s.sharedata[p].sharer, s.sharedata[p].origpath, body);
        }
    }
  }

  lemma RemoveExpands(s: State, u: Name, p: Path)
    ensures MeaningAll(s, ExpandRemove(s, u, p)) == RemoveStep(s, u, p).0
  {
    if u in s.users && Allowed(p, u) && !Stat(s.tree, s.blobs, p).Missing? {
      match IsSharedFile(s.sharedata, p)
      case Unshared => Meaning1(s, Delete(p, u));
      case AsSharee => RemoveShareExpands(s, u, p);
      case AsSharer => Meaning2(s, UnshareEvery(p, u), Delete(p, u));
    }
  }

  lemma RemoveShareExpands(s: State, u: Name, p: Path)
    requires u in s.users && Allowed(p, u) && !Stat(s.tree, s.blobs, p).Missing? && IsSharedFile(s.sharedata, p).AsSharee?
    ensures MeaningAll(s, ExpandRemove(s, u, p)) == RemoveStep(s, u, p).0
  {
    Meaning1(s, Do(DropEntry(p)));
    Meaning2(s, Do(DropEntry(p)), Do(DropShares({p})));
  }

  lemma ShareExpands(s: State, u: Name, p: Path, sharee: Name, perm: string)
    ensures MeaningAll(s, ExpandShare(s, u, p, sharee, perm)) == ShareStep(s, u, p, sharee, perm).0
  {
    if Allowed(p, u) && PermOf(perm).Some? {
      Meaning1(s, Search(u, p, BaseName(p), sharee, PermOf(perm).value, 0));
    }
  }

  lemma OnlyRow(rows: set<Path>, k: Path)
    requires |rows| == 1 && k in rows
    ensures rows == {k}
  {
    assert |rows - {k}| == 0;
  }

  lemma UnshareExpands(s: State, u: Name, p: Path, sharee: Name)
    ensures MeaningAll(s, ExpandUnshare(s, u, p, sharee)) == UnshareStep(s, u, p, sharee).0
  {
    var rows := Matching(s.sharedata, u, sharee, p);
    if |rows| == 1 {
      var k :| k in rows;
      OnlyRow(rows, k);
      Meaning2(s, Do(DropEntry(k)), Do(DropShares(rows)));
    }
  }

  lemma HandlerExpands(s: State, op: Op)
    ensures MeaningAll(s, ExpandHandler(s, op)) == Step(s, op).0
  {
    match op
    case Signup(username, password) => SignupExpands(s, username, password);
    case Mkdir(u, p) => Meaning1(s, Do(PutEntry(p, Dir)));
    case Upload(u, p, body) => UploadExpands(s, u, p, body);
    case Remove(u, p) => RemoveExpands(s, u, p);
    case Share(u, p, sharee, perm) => ShareExpands(s, u, p, sharee, perm);
    case Unshare(u, p, sharee) => UnshareExpands(s, u, p, sharee);
    case Chperm(u, p, sharee, perm) =>
      if PermOf(perm).Some? {
        Meaning1(s, Do(SetPerm(Matching(s.sharedata, u, sharee, p), PermOf(perm).value)));
      }
  }

  lemma HelperExpands(s: State, p: Path, u: Name, body: Bytes)
    ensures MeaningAll(s, Expand(s, Helper(p, u, body))) == Uploaded(s, p, u, body).0
  {
    Meaning1(s, Dedup(p, body));
    Meaning2(s, Delete(p, u), Dedup(p, body));
  }

  lemma DeleteExpands(s: State, p: Path, u: Name)
    ensures MeaningAll(s, ExpandDelete(s, p, u)) == Removed(s, p, u).0
  {
    Meaning1(s, Do(DropEntry(p)));
    if p in s.tree && s.tree[p].Link? {
      Meaning2(s, Do(DropEntry(p)), Discount(s.tree[p].target));
    }
  }

  lemma DiscountExpands(s: State, f: string)
    ensures MeaningAll(s, ExpandDiscount(s, f)) == Discounted(s, f)
  {
    Meaning2(s, Do(DropBlob(f)), Do(DropRow(f)));
    var left := (if f in s.filedata then s.filedata[f].numowners else 0) - 1;
    if left > 0 {
      Meaning1(s, Do(PutRow(f, s.filedata[f].(numowners := left))));
    }
  }

  lemma DedupExpands(s: State, p: Path, body: Bytes)
    ensures MeaningAll(s, ExpandDedup(s, p, body)) == Stored(s, p, body).0
  {
    match ByHash(s.filedata, Hash(body))
    case None => Meaning2(s, Do(PutBlob(FileName(s.filecount), body)), LinkFresh(p, body));
    case Some(f) => Meaning1(s, LinkFound(f, p));
  }

  lemma LinkFreshExpands(s: State, p: Path, body: Bytes)
    ensures MeaningAll(s, ExpandLinkFresh(s, p, body)) == LinkedFresh(s, p, body)
  {
    var f := FileName(s.filecount);
    Meaning3(s, Do(PutEntry(p, Link(f))), Do(PutRow(f, FileRow(Hash(body), 1))), Do(BumpCounter));
  }

  lemma RelinksAll(s: State, sharer: Name, p: Path, body: Bytes, list: seq<Path>)
    requires Places(list) == ShareesOf(s.sharedata, sharer, p)
    ensures var m := Uploaded(s.(tree := s.tree - Places(list)), p, sharer, body).0;
            Meaning(m, RelinkEach(list, p)) == SharerUploaded(s, sharer, p, body)
  {
  }

  lemma SharerJobExpands(s: State, sharer: Name, p: Path, body: Bytes)
    ensures MeaningAll(s, Expand(s, SharerJob(sharer, p, body))) == SharerUploaded(s, sharer, p, body)
  {
    var list := Listing(ShareesOf(s.sharedata, sharer, p));
    var rest := [Helper(p, sharer, body), RelinkEach(list, p)];
    assert Places(list) == ShareesOf(s.sharedata, sharer, p);
    calc {
      MeaningAll(s, DropEach(list) + rest);
      { MeaningAppend(s, DropEach(list), rest); }
      MeaningAll(MeaningAll(s, DropEach(list)), rest);
      { DropEachAll(s, list); }
      MeaningAll(s.(tree := s.tree - Places(list)), rest);
      { Meaning2(s.(tree := s.tree - Places(list)), Helper(p, sharer, body), RelinkEach(list, p)); }
      Meaning(Uploaded(s.(tree := s.tree - Places(list)), p, sharer, body).0, RelinkEach(list, p));
      { RelinksAll(s, sharer, p, body, list); }
      SharerUploaded(s, sharer, p, body);
    }
  }

  lemma SmallJobsExpand(s: State, j: Job)
    requires j.MakeRoot? || j.LinkFound? || j.CountUp?
    ensures MeaningAll(s, Expand(s, j)) == Meaning(s, j)
  {
    match j
    case MakeRoot(u) => Meaning2(s, Do(PutEntry(Root(u), Dir)), Do(PutEntry(SharedDir(u), Dir)));
    case LinkFound(f, p) => Meaning2(s, Do(PutEntry(p, Link(f))), CountUp(f));
    case CountUp(f) =>
      if f in s.filedata {
        Meaning1(s, Do(PutRow(f, s.filedata[f].(numowners := s.filedata[f].numowners + 1))));
      }
  }

  lemma LinkShareeExpands(s: State, u: Name, p: Path, sharee: Name, perm: int, k: Path)
    ensures MeaningAll(s, Expand(s, LinkSharee(u, p, sharee, perm, k))) == SharedAt(s, u, p, sharee, perm, k).0
  {
    if p in s.tree {
      Meaning2(s, Do(PutEntry(k, s.tree[p])), Do(PutShare(k, ShareRow(u, sharee, p, perm))));
    }
  }

  lemma SearchExpands(s: State, j: Job)
    requires j.Search?
    ensures MeaningAll(s, Expand(s, j)) == Meaning(s, j)
  {
    var k := SharedDir(j.sharee) + [Candidate(j.name, j.i)];
    if StatCandidate(s, j.sharee, j.name, j.i).Missing? {
      if !CanEnd(s, j.sharee, j.name) {
        TakenForEver(s, j.sharee, j.name, j.i);
      }
      Meaning1(s, LinkSharee(j.u, j.p, j.sharee, j.perm, k));
    } else {
      Meaning1(s, Search(j.u, j.p, j.name, j.sharee, j.perm, j.i + 1));
    }
  }

  /** Reading the store and going on with other jobs loses nothing and adds nothing. */
  lemma JobExpands(s: State, j: Job)
    requires !j.Do?
    ensures MeaningAll(s, Expand(s, j)) == Meaning(s, j)
  {
    match j
    case Handle(op) => HandlerExpands(s, op);
    case Helper(p, u, body) => HelperExpands(s, p, u, body);
    case Delete(p, u) => DeleteExpands(s, p, u);
    case Discount(f) => DiscountExpands(s, f);
    case Dedup(p, body) => DedupExpands(s, p, body);
    case LinkFresh(p, body) => LinkFreshExpands(s, p, body);
    case SharerJob(sharer, p, body) => SharerJobExpands(s, sharer, p, body);
    case RelinkEach(list, p) =>
      if p in s.tree && s.tree[p].Link? {
        LinkEachAll(s, list, s.tree[p]);
      }
    case UnshareEvery(p, u) =>
      UnshareEachAll(s, Listing(ShareesOf(s.sharedata, u, p)));
      assert Places(Listing(ShareesOf(s.sharedata, u, p))) == ShareesOf(s.sharedata, u, p);
    case Search(_, _, _, _, _, _) => SearchExpands(s, j);
    case LinkSharee(u, p, sharee, perm, k) => LinkShareeExpands(s, u, p, sharee, perm, k);
    case _ => SmallJobsExpand(s, j);
  }

  // ----- The server's handlers as code

  /** One micro-step: a statement is made, or a job reads the store as it now is and goes on. */
  ghost function JobStep(s: State, jobs: seq<Job>): Next<State, seq<Job>> {
    if jobs == [] then Return(s)
    else if jobs[0].Do? then Go(Apply(s, jobs[0].e), jobs[1..])
    else Go(s, Expand(s, jobs[0]) + jobs[1..])
  }

  ghost const HANDLER_CODE: Code<State, Op, seq<Job>> := Code(
    (op: Op) => true, (op: Op) => [Handle(op)], (s: State, jobs: seq<Job>) => JobStep(s, jobs), (s: State) => Itoa(s.filecount))

  ghost const BIG_STEP: (State, Op) -> State := (s: State, op: Op) => Step(s, op).0

  /** What is left to do amounts to what is left of the step. */
  ghost predicate OnCourse(s: State, op: Op, c: Config<State, seq<Job>>) {
    match c
    case End(t) => t == Step(s, op).0
    case Mid(t, jobs) => MeaningAll(t, jobs) == Step(s, op).0
  }

  lemma JobStepOnCourse(s: State, op: Op, t: State, jobs: seq<Job>)
    requires OnCourse(s, op, Mid(t, jobs))
    ensures match JobStep(t, jobs)
            case Go(v, rest) => OnCourse(s, op, Mid(v, rest))
            case Return(v) => OnCourse(s, op, End(v))
  {
    if jobs != [] && !jobs[0].Do? {
      JobExpands(t, jobs[0]);
      MeaningAppend(t, Expand(t, jobs[0]), jobs[1..]);
    }
  }

  lemma {:induction false} AloneWorks(s: State, op: Op, n: nat)
    ensures OnCourse(s, op, Alone(HANDLER_CODE, s, [Handle(op)], n))
  {
    if n == 0 {
      Meaning1(s, Handle(op));
    } else {
      AloneWorks(s, op, n - 1);
      match Alone(HANDLER_CODE, s, [Handle(op)], n - 1)
      case End(t) =>
      case Mid(t, jobs) => JobStepOnCourse(s, op, t, jobs);
    }
  }

  lemma HandlersImplementSteps()
    ensures Implements(HANDLER_CODE, BIG_STEP)
  {
    forall s, op, n: nat | HANDLER_CODE.known(op) && Alone(HANDLER_CODE, s, HANDLER_CODE.enter(op), n).End?
      ensures Alone(HANDLER_CODE, s, HANDLER_CODE.enter(op), n).s == BIG_STEP(s, op)
    {
      AloneWorks(s, op, n);
    }
  }

  // ----- Every call returns

  ghost predicate Finishes(s: State, jobs: seq<Job>) {
    exists n: nat :: Alone(HANDLER_CODE, s, jobs, n).End?
  }

  /** Whatever the store is by then. */
  ghost predicate Ends(jobs: seq<Job>) {
    forall s :: Finishes(s, jobs)
  }

  lemma FinishesBefore(s: State, jobs: seq<Job>, t: State, rest: seq<Job>)
    requires JobStep(s, jobs) == Go(t, rest) && Finishes(t, rest)
    ensures Finishes(s, jobs)
  {
    var n: nat :| Alone(HANDLER_CODE, t, rest, n).End?;
    AloneShift(HANDLER_CODE, s, jobs, t, rest, n);
    assert Alone(HANDLER_CODE, s, jobs, n + 1).End?;
  }

  function Rank(j: Job): nat {
    match j
    case Do(_) => 0
    case Handle(_) => 6
    case SharerJob(_, _, _) => 5
    case Helper(_, _, _) => 4
    case Dedup(_, _) => 3
    case Delete(_, _) | LinkFound(_, _) | Search(_, _, _, _, _, _) => 2
    case _ => 1
  }

  lemma ListLowers(s: State, j: Job)
    requires j.SharerJob? || j.RelinkEach? || j.UnshareEvery?
    ensures forall i <- Expand(s, j) :: Rank(i) < Rank(j) && !i.Search? && !i.Handle?
  {
    match j
    case SharerJob(sharer, p, body) => OnlyDos(Listing(ShareesOf(s.sharedata, sharer, p)), Dir);
    case RelinkEach(list, p) =>
      if p in s.tree {
        OnlyDos(list, s.tree[p]);
      }
    case UnshareEvery(p, u) => OnlyDos(Listing(ShareesOf(s.sharedata, u, p)), Dir);
  }

  /** After its tests a handler's jobs go on with jobs of lower rank, all but the name search. */
  lemma ExpandLowers(s: State, j: Job)
    requires !j.Do? && !j.Search? && !j.Handle?
    ensures forall i <- Expand(s, j) :: Rank(i) < Rank(j) && !i.Search? && !i.Handle?
  {
    if j.SharerJob? || j.RelinkEach? || j.UnshareEvery? {
      ListLowers(s, j);
    }
  }

  lemma {:induction false} OnlyDos(list: seq<Path>, n: Node)
    ensures forall j <- DropEach(list) :: j.Do?
    ensures forall j <- LinkEach(list, n) :: j.Do?
    ensures forall j <- UnshareEach(list) :: j.Do?
  {
    if list != [] {
      OnlyDos(list[1..], n);
    }
  }

  /** A name search that can end passes each name that is taken once. */
  lemma {:induction false} SearchFinishes(s: State, j: Job, rest: seq<Job>)
    requires j.Search? && CanEnd(s, j.sharee, j.name) && Ends(rest)
    ensures Finishes(s, [j] + rest)
    decreases Pending(KindsOf(s.tree), SharedDir(j.sharee), j.name, j.i)
  {
    assert ([j] + rest)[1..] == rest;
    if StatCandidate(s, j.sharee, j.name, j.i).Missing? {
      EndsJob(Expand(s, j)[0], rest);
    } else {
      TakenInKinds(s, j.sharee, j.name, j.i);
      PendingShrinks(KindsOf(s.tree), SharedDir(j.sharee), j.name, j.i);
      SearchFinishes(s, j.(i := j.i + 1), rest);
    }
    FinishesBefore(s, [j] + rest, s, Expand(s, j) + rest);
  }

  /** Whether the job ends does not depend on the store. */
  predicate Bounded(j: Job) {
    !j.Handle? && !j.Search?
  }

  lemma {:induction false} EndsJob(j: Job, rest: seq<Job>)
    requires Ends(rest) && Bounded(j)
    ensures Ends([j] + rest)
    decreases Rank(j) + 1, 0
  {
    assert ([j] + rest)[1..] == rest;
    forall s ensures Finishes(s, [j] + rest) {
      if j.Do? {
        FinishesBefore(s, [j] + rest, Apply(s, j.e), rest);
      } else {
        ExpandLowers(s, j);
        EndsJobs(Expand(s, j), rest, Rank(j));
        FinishesBefore(s, [j] + rest, s, Expand(s, j) + rest);
      }
    }
  }

  lemma {:induction false} EndsJobs(jobs: seq<Job>, rest: seq<Job>, r: nat)
    requires Ends(rest) && forall j <- jobs :: Bounded(j) && Rank(j) < r
    ensures Ends(jobs + rest)
    decreases r, |jobs|
  {
    if jobs == [] {
      assert jobs + rest == rest;
    } else {
      EndsJobs(jobs[1..], rest, r);
      EndsJob(jobs[0], jobs[1..] + rest);
      assert jobs + rest == [jobs[0]] + (jobs[1..] + rest);
    }
  }

  /** All handlers but share go on with jobs that end. */
  lemma HandlerBounded(s: State, op: Op)
    requires !op.Share?
    ensures forall j <- ExpandHandler(s, op) :: Bounded(j) && Rank(j) < Rank(Handle(op))
  {
    match op
    case Upload(u, p, body) => UploadBounded(s, u, p, body);
    case Remove(u, p) => RemoveBounded(s, u, p);
    case Unshare(u, p, sharee) => UnshareBounded(s, u, p, sharee);
    case _ =>
  }

  lemma UploadBounded(s: State, u: Name, p: Path, body: Bytes)
    ensures forall j <- ExpandUpload(s, u, p, body) :: Bounded(j) && Rank(j) < 6
  {
  }

  lemma RemoveBounded(s: State, u: Name, p: Path)
    ensures forall j <- ExpandRemove(s, u, p) :: Bounded(j) && Rank(j) < 6
  {
  }

  lemma UnshareBounded(s: State, u: Name, p: Path, sharee: Name)
    ensures forall j <- ExpandUnshare(s, u, p, sharee) :: Bounded(j) && Rank(j) < 6
  {
  }

  lemma NoJobsEnd()
    ensures Ends([])
  {
    forall t ensures Finishes(t, []) {
      assert Alone(HANDLER_CODE, t, [], 0) == Mid(t, []);
      assert Alone(HANDLER_CODE, t, [], 1).End?;
    }
  }

  lemma ShareFinishes(s: State, u: Name, p: Path, sharee: Name, perm: string)
    requires ShareRefusal(s, u, p, sharee, perm) != Some(Hangs)
    ensures Finishes(s, ExpandShare(s, u, p, sharee, perm))
  {
    var jobs := ExpandShare(s, u, p, sharee, perm);
    NoJobsEnd();
    if jobs != [] {
      SearchEndsExactly(s, sharee, BaseName(p));
      SearchFinishes(s, jobs[0], []);
      assert jobs == [jobs[0]] + [];
    }
  }

  lemma CallFinishes(s: State, op: Op)
    requires Step(s, op).1 != Hangs
    ensures Finishes(s, [Handle(op)])
  {
    NoJobsEnd();
    if op.Share? {
      ShareFinishes(s, op.u, op.p, op.sharee, op.perm);
    } else {
      HandlerBounded(s, op);
      EndsJobs(ExpandHandler(s, op), [], Rank(Handle(op)));
    }
    assert [Handle(op)][1..] == [] && ExpandHandler(s, op) + [] == ExpandHandler(s, op);
    FinishesBefore(s, [Handle(op)], s, ExpandHandler(s, op));
  }

  function SearchAt(op: Op, i: nat): Job
    requires op.Share? && op.p != [] && PermOf(op.perm).Some?
  {
    Search(op.u, op.p, BaseName(op.p), op.sharee, PermOf(op.perm).value, i)
  }

  /** Where a hung call is: in its tests, or at the i-th name of the search. */
  function HungAt(op: Op, n: nat): seq<Job>
    requires op.Share? && op.p != [] && PermOf(op.perm).Some?
  {
    if n == 0 then [Handle(op)] else [SearchAt(op, n - 1)]
  }

  lemma HungShare(s: State, u: Name, p: Path, sharee: Name, perm: string)
    requires ShareRefusal(s, u, p, sharee, perm) == Some(Hangs)
    ensures Allowed(p, u) && PermOf(perm).Some? && !CanEnd(s, sharee, BaseName(p))
    ensures ExpandShare(s, u, p, sharee, perm) == [Search(u, p, BaseName(p), sharee, PermOf(perm).value, 0)]
  {
    if Allowed(p, u) {
      SearchEndsExactly(s, sharee, BaseName(p));
    }
  }

  lemma OnlyShareHangs(s: State, op: Op)
    requires Step(s, op).1 == Hangs
    ensures op.Share? && ShareRefusal(s, op.u, op.p, op.sharee, op.perm) == Some(Hangs)
  {
  }

  lemma HungGoesOn(s: State, op: Op, n: nat)
    requires op.Share? && ShareRefusal(s, op.u, op.p, op.sharee, op.perm) == Some(Hangs)
    ensures op.p != [] && PermOf(op.perm).Some?
    ensures JobStep(s, HungAt(op, n)) == Go(s, HungAt(op, n + 1))
  {
    HungShare(s, op.u, op.p, op.sharee, op.perm);
    if n == 0 {
      assert [SearchAt(op, 0)] + [Handle(op)][1..] == [SearchAt(op, 0)];
    } else {
      TakenForEver(s, op.sharee, BaseName(op.p), n - 1);
      assert [SearchAt(op, n)] + [SearchAt(op, n - 1)][1..] == [SearchAt(op, n)];
    }
  }

  /** A hung call is in its tests or in the name search for ever, and changes nothing. */
  lemma StillSearching(s: State, op: Op, n: nat)
    requires Step(s, op).1 == Hangs
    ensures op.Share? && op.p != [] && PermOf(op.perm).Some?
    ensures Alone(HANDLER_CODE, s, [Handle(op)], n) == Mid(s, HungAt(op, n))
  {
    OnlyShareHangs(s, op);
    HungGoesOn(s, op, 0);
    var at: nat -> seq<Job> := (i: nat) => HungAt(op, i);
    forall i: nat ensures HANDLER_CODE.step(s, at(i)) == Go(s, at(i + 1)) {
      HungGoesOn(s, op, i);
    }
    AloneLoops(HANDLER_CODE, s, at, n);
  }

  /** Exactly which calls return, after finitely many micro-steps of their own and in the state of the step. */
  lemma CallReturnsExactly(s: State, op: Op)
    ensures Finishes(s, [Handle(op)]) <==> Step(s, op).1 != Hangs
    ensures Step(s, op).1 != Hangs ==> exists n: nat :: Alone(HANDLER_CODE, s, [Handle(op)], n) == End(Step(s, op).0)
    ensures Step(s, op).1 == Hangs ==> NeverReturns(HANDLER_CODE, s, op)
  {
    if Step(s, op).1 == Hangs {
      forall n: nat ensures Alone(HANDLER_CODE, s, [Handle(op)], n).Mid? && Alone(HANDLER_CODE, s, [Handle(op)], n).s == s {
        StillSearching(s, op, n);
      }
    } else {
      CallFinishes(s, op);
      var n: nat :| Alone(HANDLER_CODE, s, [Handle(op)], n).End?;
      AloneWorks(s, op, n);
    }
  }

  lemma HangsForGood(s: State, op: Op)
    requires Step(s, op).1 == Hangs
    ensures NeverReturns(HANDLER_CODE, s, op)
  {
    CallReturnsExactly(s, op);
  }

  lemma {:induction false} SerialIsRun(s: State, ops: seq<Op>)
    ensures Serial(BIG_STEP, s, ops) == Run(s, ops)
    decreases |ops|
  {
    if ops != [] {
      SerialIsRun(s, ops[..|ops| - 1]);
    }
  }

  /** Any number of concurrent clients of a server started on any state, any interleaving of arrivals, lock
      operations and single statements: whenever no call holds the lock the store is that of the serial
      run of the requests in the order they took it, and valid if that run keeps the invariant - as it
      does when all requests are confined. */
  lemma ServerSerialises(s0: State, text: string, events: seq<Event<Op>>)
    ensures var w := HappenAll(HANDLER_CODE, Boot(s0, text), events);
            && (!w.lock.Held? ==> w.store == Run(s0, w.log))
            && (!w.lock.Held? && Valid(s0) && KeepsThroughout(s0, w.log) ==> Valid(w.store))
            && ((forall op <- Requests(events) :: ConfinedOp(op)) ==> KeepsThroughout(s0, w.log))
  {
    var w := HappenAll(HANDLER_CODE, Boot(s0, text), events);
    HandlersImplementSteps();
    Serialisable(HANDLER_CODE, BIG_STEP, s0, text, events);
    SerialIsRun(s0, w.log);
    if Valid(s0) && KeepsThroughout(s0, w.log) {
      RunKeepsValidThroughout(s0, w.log);
    }
    LogArrived(HANDLER_CODE, s0, text, events);
    if forall op <- Requests(events) :: ConfinedOp(op) {
      ConfinedKeepsThroughout(s0, w.log);
    }
  }

  /** Once a call that hangs has the lock, nothing more happens: no other request is served, the server
      cannot be shut down cleanly, and the store stays as the requests before left it. */
  lemma HungForGood(s0: State, text: string, before: seq<Event<Op>>, after: seq<Event<Op>>)
    requires var w := HappenAll(HANDLER_CODE, Boot(s0, text), before);
             w.lock.Held? && w.log != [] && Step(Run(s0, w.log[..|w.log| - 1]), w.log[|w.log| - 1]).1 == Hangs
    ensures var w, v := HappenAll(HANDLER_CODE, Boot(s0, text), before), HappenAll(HANDLER_CODE, Boot(s0, text), before + after);
            v.lock == w.lock && v.log == w.log && !v.finalized && v.store == Run(s0, w.log[..|w.log| - 1])
  {
    var log := HappenAll(HANDLER_CODE, Boot(s0, text), before).log;
    var n := |log| - 1;
    SerialIsRun(s0, log[..n]);
    HandlersImplementSteps();
    HangsForGood(Run(s0, log[..n]), log[n]);
    NeverReleased(HANDLER_CODE, BIG_STEP, s0, text, before, after);
  }

  /** After a clean shutdown no statement follows the finalizer, and reading filecount.txt at the next
      start gives the counter of the final store. */
  lemma CounterPersists(s0: State, text: string, before: seq<Event<Op>>, after: seq<Event<Op>>)
    requires HappenAll(HANDLER_CODE, Boot(s0, text), before).finalized
    ensures var w, v := HappenAll(HANDLER_CODE, Boot(s0, text), before), HappenAll(HANDLER_CODE, Boot(s0, text), before + after);
            v.store == w.store && v.file == w.file && LoadCounter(v.file) == Some(v.store.filecount)
  {
    HandlersImplementSteps();
    AlwaysGood(HANDLER_CODE, BIG_STEP, s0, text, before);
    NothingAfterShutdown(HANDLER_CODE, BIG_STEP, s0, text, before, after);
    CounterSurvivesRestart(HappenAll(HANDLER_CODE, Boot(s0, text), before).store.filecount);
  }

  // ----- Progress

  /** The last call to take the lock, if it has it still, returns. */
  ghost predicate HolderWill(s0: State, w: World<State, Op, seq<Job>>) {
    w.lock.Held? && w.log != [] ==> Step(Run(s0, w.log[..|w.log| - 1]), w.log[|w.log| - 1]).1 != Hangs
  }

  lemma HolderWillEnd(s0: State, w: World<State, Op, seq<Job>>) returns (end: nat)
    requires HolderWill(s0, w)
    ensures HolderEnds(HANDLER_CODE, BIG_STEP, s0, w, end)
  {
    end := 0;
    if w.lock.Held? && w.log != [] {
      var k := |w.log| - 1;
      SerialIsRun(s0, w.log[..k]);
      end := WillEnd(Run(s0, w.log[..k]), w.log[k]);
    }
  }

  lemma WillEnd(s: State, op: Op) returns (end: nat)
    requires Step(s, op).1 != Hangs
    ensures Alone(HANDLER_CODE, s, [Handle(op)], end) == End(Step(s, op).0)
  {
    CallReturnsExactly(s, op);
    end :| Alone(HANDLER_CODE, s, [Handle(op)], end) == End(Step(s, op).0);
  }

  lemma HappenFrom(s0: State, text: string, before: seq<Event<Op>>, after: seq<Event<Op>>)
    ensures HappenAll(HANDLER_CODE, Boot(s0, text), before + after)
         == HappenAll(HANDLER_CODE, HappenAll(HANDLER_CODE, Boot(s0, text), before), after)
  {
    HappenAllAppend(HANDLER_CODE, Boot(s0, text), before, after);
  }

  /** Whatever has happened before, a request that arrives while the server is not shut can be answered with
      its handler run to the end - unless it hangs, or the call that has the lock does. It is then the last
      in the log, and the store is the serial run of that log. No request that waits is touched. */
  lemma RequestAnswered(s0: State, text: string, before: seq<Event<Op>>, t: nat, op: Op)
    requires var w := HappenAll(HANDLER_CODE, Boot(s0, text), before);
             !w.lock.Shut? && t !in w.threads && HolderWill(s0, w) && Step(Run(s0, w.log), op).1 != Hangs
    ensures var w := HappenAll(HANDLER_CODE, Boot(s0, text), before);
            exists after :: ServedLast(w, t, op, Run(s0, w.log + [op]), HappenAll(HANDLER_CODE, Boot(s0, text), before + ([Arrive(t, op)] + after)))
  {
    var w := HappenAll(HANDLER_CODE, Boot(s0, text), before);
    HandlersImplementSteps();
    AlwaysGood(HANDLER_CODE, BIG_STEP, s0, text, before);
    SerialIsRun(s0, w.log);
    SerialIsRun(s0, w.log + [op]);
    var holder := HolderWillEnd(s0, w);
    var own := WillEnd(Run(s0, w.log), op);
    var after := ArrivalServed(HANDLER_CODE, BIG_STEP, s0, w, t, op, holder, own);
    HappenFrom(s0, text, before, [Arrive(t, op)] + after);
    assert ServedLast(w, t, op, Run(s0, w.log + [op]), HappenAll(HANDLER_CODE, Boot(s0, text), before + ([Arrive(t, op)] + after)));
  }

  /** The first request of all is executed, unless it hangs. */
  lemma FirstRequestAnswered(s0: State, text: string, op: Op)
    requires Step(s0, op).1 != Hangs
    ensures exists events :: ServedFirst(s0, op, HappenAll(HANDLER_CODE, Boot(s0, text), events))
  {
    var none: seq<Event<Op>>, w: World<State, Op, seq<Job>> := [], Boot(s0, text);
    RequestAnswered(s0, text, none, 0, op);
    var after :| ServedLast(w, 0, op, Run(s0, w.log + [op]), HappenAll(HANDLER_CODE, Boot(s0, text), none + ([Arrive(0, op)] + after)));
    RunAppend(s0, [], op);
    assert [] + [op] == [op];
    assert ServedFirst(s0, op, HappenAll(HANDLER_CODE, Boot(s0, text), none + ([Arrive(0, op)] + after)));
  }

  /** And a server just started can be shut down, with the counter in the file. */
  lemma ShutDownAtOnce(s0: State, text: string)
    ensures exists events :: ShutCleanly(s0, [], HappenAll(HANDLER_CODE, Boot(s0, text), events))
  {
    CanShutDown(s0, text, []);
  }

  ghost predicate ServedFirst(s0: State, op: Op, v: World<State, Op, seq<Job>>) {
    v.log == [op] && v.store == Step(s0, op).0 && exists t :: t in v.threads && v.threads[t].Answered?
  }

  /** And it can always be shut down cleanly, unless the call that has the lock hangs: the counter of the
      serial run is then in the file. */
  lemma CanShutDown(s0: State, text: string, before: seq<Event<Op>>)
    requires var w := HappenAll(HANDLER_CODE, Boot(s0, text), before); !w.lock.Shut? && HolderWill(s0, w)
    ensures var w := HappenAll(HANDLER_CODE, Boot(s0, text), before);
            exists after :: ShutCleanly(s0, w.log, HappenAll(HANDLER_CODE, Boot(s0, text), before + after))
  {
    var w := HappenAll(HANDLER_CODE, Boot(s0, text), before);
    HandlersImplementSteps();
    AlwaysGood(HANDLER_CODE, BIG_STEP, s0, text, before);
    SerialIsRun(s0, w.log);
    var holder := HolderWillEnd(s0, w);
    var micros := LockComesFree(HANDLER_CODE, BIG_STEP, s0, w, holder);
    var v := HappenAll(HANDLER_CODE, w, micros);
    ShutsDown(HANDLER_CODE, v);
    var ending: seq<Event<Op>> := [Shutdown, Finalize];
    HappenAllAppend(HANDLER_CODE, w, micros, ending);
    HappenFrom(s0, text, before, micros + ending);
    assert ShutCleanly(s0, w.log, HappenAll(HANDLER_CODE, Boot(s0, text), before + (micros + ending)));
  }

  ghost predicate ShutCleanly(s0: State, log: seq<Op>, v: World<State, Op, seq<Job>>) {
    && v.lock.Shut? && v.finalized && v.log == log && v.store == Run(s0, log)
    && v.file == Itoa(Run(s0, log).filecount)
  }

  // ----- One session after the other

  /** main: the tables, directories and blobs as they are on disk, the counter from the text. */
  function Started(disk: State, text: string): State {
    match LoadCounter(text)
    case Some(n) => disk.(filecount := n)
    case None => disk
  }

  /** One lifetime of the server on the disk and the counter text of the one before. */
  ghost function Session(disk: State, text: string, events: seq<Event<Op>>): World<State, Op, seq<Job>> {
    HappenAll(HANDLER_CODE, Boot(Started(disk, text), text), events)
  }

  /** What the sessions so far leave: the disk, the text of filecount.txt, and all requests in the order
      they took the lock. */
  datatype Left = Left(disk: State, text: string, log: seq<Op>)

  ghost function AfterSessions(disk: State, text: string, sessions: seq<seq<Event<Op>>>): Left
    decreases |sessions|
  {
    if sessions == [] then Left(Started(disk, text), text, [])
    else
      var n := |sessions| - 1;
      var left := AfterSessions(disk, text, sessions[..n]);
      var w := Session(left.disk, left.text, sessions[n]);
      Left(w.store, w.file, left.log + w.log)
  }

  /** Every session ends with its finalizer run. */
  ghost predicate AllFinalized(disk: State, text: string, sessions: seq<seq<Event<Op>>>)
    decreases |sessions|
  {
    sessions == [] ||
    var n := |sessions| - 1;
    var left := AfterSessions(disk, text, sessions[..n]);
    AllFinalized(disk, text, sessions[..n]) && Session(left.disk, left.text, sessions[n]).finalized
  }

  lemma {:induction false} RunTwice(s: State, a: seq<Op>, b: seq<Op>)
    ensures Run(s, a + b) == Run(Run(s, a), b)
    decreases |b|
  {
    if b == [] {
      assert a + b == a;
    } else {
      var n := |b| - 1;
      RunTwice(s, a, b[..n]);
      assert a + b == a + b[..n] + [b[n]];
      RunAppend(s, a + b[..n], b[n]);
    }
  }

  /** A finalized session is a serial run, and its text brings the counter back. */
  lemma SessionIsRun(disk: State, text: string, events: seq<Event<Op>>)
    requires Session(disk, text, events).finalized
    ensures var w := Session(disk, text, events);
            w.store == Run(Started(disk, text), w.log) && LoadCounter(w.file) == Some(w.store.filecount)
  {
    var s0 := Started(disk, text);
    HandlersImplementSteps();
    AlwaysGood(HANDLER_CODE, BIG_STEP, s0, text, events);
    ServerSerialises(s0, text, events);
    assert events + [] == events;
    CounterPersists(s0, text, events, []);
  }

  /** Any number of concurrent, cleanly shut down sessions, each started from the tables, directories and
      counter text the one before left, are one serial run of all their requests: shutting down and
      starting again changes nothing, and the invariant holds at the end if that run keeps it. */
  lemma {:induction false} SessionsAreOneRun(disk: State, text: string, sessions: seq<seq<Event<Op>>>)
    requires LoadCounter(text).Some? && AllFinalized(disk, text, sessions)
    ensures var left := AfterSessions(disk, text, sessions);
            && left.disk == Run(disk.(filecount := LoadCounter(text).value), left.log)
            && LoadCounter(left.text) == Some(left.disk.filecount)
            && (Valid(Started(disk, text)) && KeepsThroughout(Started(disk, text), left.log) ==> Valid(left.disk))
    decreases |sessions|
  {
    var s0, left := Started(disk, text), AfterSessions(disk, text, sessions);
    if sessions != [] {
      var n := |sessions| - 1;
      var prior := AfterSessions(disk, text, sessions[..n]);
      SessionsAreOneRun(disk, text, sessions[..n]);
      assert Started(prior.disk, prior.text) == prior.disk;
      SessionIsRun(prior.disk, prior.text, sessions[n]);
      RunTwice(s0, prior.log, Session(prior.disk, prior.text, sessions[n]).log);
    }
    if Valid(s0) && KeepsThroughout(s0, left.log) {
      RunKeepsValidThroughout(s0, left.log);
    }
  }
}
