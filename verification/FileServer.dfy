/** The server as the source runs it: fields updated in place, string-prefix tests, table statements
    and file-system calls one at a time, loops over the sharees. Each handler is proved to do exactly
    what its step function says, to keep the invariant exactly when the step is one that keeps it, and to
    take only the exits that can happen. */
module FileServer {
  import opened Decimal
  import opened Paths
  import opened Store
  import opened Handlers
  import opened Invariants
  import opened Steps
  import opened Confinement
  import opened Listings

  // ----- What the string-prefix tests decide

  /** `checkpath`: the text of the requested path starts with the text of the user's root. */
  predicate CheckPath(userfs: Path, p: Path, u: Name) {
    Render(userfs + Root(u)) <= Render(userfs + p)
  }

  predicate UnderSharedDir(userfs: Path, p: Path, u: Name) {
    Render(userfs + SharedDir(u)) <= Render(userfs + p)
  }

  lemma UnderUserfs(userfs: Path, b: Path, d: Path)
    requires b != []
    ensures Within(userfs + d, userfs + b) <==> Within(d, b)
    ensures SiblingExtends(userfs + d, userfs + b) <==> SiblingExtends(d, b)
  {
    var n := |b| - 1;
    assert (userfs + b)[..|userfs| + n] == userfs + b[..n];
    assert (userfs + d)[|userfs|..] == d && (userfs + b)[|userfs|..] == b;
    if b <= d {
      assert userfs + d == (userfs + b) + d[|b|..];
    }
    if b[..n] <= d {
      assert userfs + d == (userfs + b[..n]) + d[n..];
    }
    if userfs + b[..n] <= userfs + d {
      assert (userfs + d)[..|userfs| + n][|userfs|..] == d[..n];
    }
  }

  /** `checkpath` accepts a path exactly when it is in the user's root, or its first component below
      userfs properly extends the user name. Its documentation promises only the first. */
  lemma CheckPathDecides(userfs: Path, p: Path, u: Name)
    ensures CheckPath(userfs, p, u) <==> Within(p, Root(u)) || SiblingExtends(p, Root(u))
    ensures CheckPath(userfs, p, u) <==> Allowed(p, u)
    ensures Confined(p, u) <==> (CheckPath(userfs, p, u) ==> Within(p, Root(u)))
  {
    PrefixDecides(userfs + Root(u), userfs + p);
    UnderUserfs(userfs, Root(u), p);
    assert Root(u)[..0] == [];
    assert Within(p, Root(u)) <==> p != [] && p[0] == u;
  }

  /** Where `checkpath` and its documentation part: a user name that another one extends. */
  lemma CheckPathAcceptsSibling(userfs: Path)
    ensures CheckPath(userfs, ["bobby", "x"], "bob") && !Within(["bobby", "x"], Root("bob"))
  {
    CheckPathDecides(userfs, ["bobby", "x"], "bob");
    assert "bobby"[..3] == "bob";
    assert ["bobby", "x"][0] == "bobby";
  }

  /** The Shared_with_me test refuses exactly the user's own paths whose second component starts with that name. */
  lemma UnderSharedDirDecides(userfs: Path, p: Path, u: Name)
    ensures UnderSharedDir(userfs, p, u) <==> Reserved(p, u)
  {
    PrefixDecides(userfs + SharedDir(u), userfs + p);
    UnderUserfs(userfs, SharedDir(u), p);
    assert SharedDir(u)[..1] == [u];
    assert Within(p, SharedDir(u)) <==> |p| >= 2 && p[0] == u && p[1] == SHARED;
  }

  lemma PlacesAppend(list: seq<Path>, k: Path)
    ensures Places(list + [k]) == Places(list) + {k}
  {
  }

  predicate Distinct(list: seq<Path>) {
    forall i, j :: 0 <= i < j < |list| ==> list[i] != list[j]
  }

  lemma NextPlace(list: seq<Path>, i: nat)
    requires Distinct(list) && i < |list|
    ensures list[i] !in Places(list[..i]) && list[i] in Places(list)
    ensures Places(list[..i]) <= Places(list)
    ensures Places(list[..i + 1]) == Places(list[..i]) + {list[i]}
  {
    assert list[..i + 1] == list[..i] + [list[i]];
    PlacesAppend(list[..i], list[i]);
  }

  lemma LinkOneMore(tree: map<Path, Node>, done: set<Path>, k: Path, n: Node)
    ensures (tree + LinksTo(done, n))[k := n] == tree + LinksTo(done + {k}, n)
  {
  }

  lemma DropOneMore<V>(m: map<Path, V>, done: set<Path>, k: Path)
    ensures m - done - {k} == m - (done + {k})
  {
  }

  lemma ClearedTable(s: State, p: Path, u: Name)
    requires UniqueHashes(s.filedata) && FileName(s.filecount) !in s.filedata
    ensures UniqueHashes(Cleared(s, p, u).filedata) && FileName(s.filecount) !in Cleared(s, p, u).filedata
    ensures Cleared(s, p, u).filecount == s.filecount
  {
    var c := Cleared(s, p, u);
    forall f, g | f in c.filedata && g in c.filedata ensures HashesApart(c.filedata, f, g) {
      assert HashesApart(s.filedata, f, g);
    }
  }

  lemma CoreTable(s: State)
    requires Core(s)
    ensures UniqueHashes(s.filedata) && FileName(s.filecount) !in s.filedata
  {
    NextNameFresh(s.filecount);
    assert FileName(s.filecount) in s.filedata ==> RowOk(s, FileName(s.filecount));
  }

  class Server {
    const userfs: Path
    var users: set<Name>
    var unnamed: set<string>
    var tree: map<Path, Node>
    var blobs: map<string, Bytes>
    var filedata: map<string, FileRow>
    var sharedata: map<Path, ShareRow>
    var filecount: int

    ghost function Contents(): State
      reads this
    {
      State(users, unnamed, tree, blobs, filedata, sharedata, filecount)
    }

    /** main: the tables and directories as they are on disk, the counter from filecount.txt. */
    constructor (userfs: Path, disk: State, counter: string)
      requires LoadCounter(counter).Some?
      ensures this.userfs == userfs
      ensures Contents() == disk.(filecount := LoadCounter(counter).value)
    {
      this.userfs := userfs;
      users, unnamed, tree, blobs := disk.users, disk.unnamed, disk.tree, disk.blobs;
      filedata, sharedata := disk.filedata, disk.sharedata;
      filecount := LoadCounter(counter).value;
    }

    /** `finalizer`: the text it writes to filecount.txt. */
    method Finalizer() returns (counter: string)
      ensures counter == Itoa(filecount)
      ensures LoadCounter(counter) == Some(filecount)
    {
      counter := Itoa(filecount);
      CounterSurvivesRestart(filecount);
    }

    // ----- File-system calls

    method OsRemove(p: Path) returns (ok: bool)
      modifies this`tree
      ensures ok == CanRemove(KindsOf(old(tree)), p)
      ensures tree == if ok then old(tree) - {p} else old(tree)
    {
      ok := CanRemove(KindsOf(tree), p);
      if ok {
        tree := tree - {p};
      }
    }

    method OsSymlink(f: string, p: Path) returns (ok: bool)
      modifies this`tree
      ensures ok == CanCreate(KindsOf(old(tree)), p)
      ensures tree == if ok then old(tree)[p := Link(f)] else old(tree)
    {
      ok := CanCreate(KindsOf(tree), p);
      if ok {
        tree := tree[p := Link(f)];
      }
    }

    method OsMkdir(p: Path) returns (ok: bool)
      modifies this`tree
      ensures ok == CanCreate(KindsOf(old(tree)), p)
      ensures tree == if ok then old(tree)[p := Dir] else old(tree)
    {
      ok := CanCreate(KindsOf(tree), p);
      if ok {
        tree := tree[p := Dir];
      }
    }

    // ----- remove and uploadHelper

    method RemoveLink(p: Path) returns (o: Outcome)
      requires p in tree && tree[p].Link? && CanRemove(KindsOf(tree), p)
      modifies this
      ensures (Contents(), o) == Unlinked(old(Contents()), p)
    {
      var name := tree[p].target;
      var ok := OsRemove(p);
      var owners := if name in filedata then filedata[name].numowners else 0;
      var left := owners - 1;
      if left > 0 {
        filedata := filedata[name := filedata[name].(numowners := left)];
      } else {
        if name !in blobs {
          return RemoveFailed;
        }
        blobs := blobs - {name};
        filedata := filedata - {name};
      }
      o := Ok;
    }

    method RemovePath(p: Path, u: Name) returns (o: Outcome)
      modifies this
      ensures (Contents(), o) == Removed(old(Contents()), p, u)
    {
      CheckPathDecides(userfs, p, u);
      if !CheckPath(userfs, p, u) {
        return OutsideRoot;
      }
      match Lstat(tree, blobs, p) {
        case Missing => return NoSuchResource;
        case NotDir => return NotADirectory;
        case Invalid => return BadPath;
        case Here(_) =>
          if p !in tree {
            return NoSuchResource;
          }
          if tree[p].Link? {
            o := RemoveLink(p);
          } else if p == SharedDir(u) {
            o := SharedDirKept;
          } else {
            var ok := OsRemove(p);
            o := if ok then Ok else NotEmpty;
          }
      }
    }

    method UploadHelper(p: Path, u: Name, body: Bytes) returns (o: Outcome)
      requires UniqueHashes(filedata) && FileName(filecount) !in filedata
      modifies this
      ensures (Contents(), o) == Uploaded(old(Contents()), p, u, body)
    {
      UnderSharedDirDecides(userfs, p, u);
      if UnderSharedDir(userfs, p, u) {
        return ReservedDir;
      }
      if Stat(tree, blobs, p).Here? {
        var _ := RemovePath(p, u);
      }
      ghost var c := Contents();
      assert c == Cleared(old(Contents()), p, u);
      ClearedTable(old(Contents()), p, u);
      o := StoreBody(p, body);
    }

    /** The deduplicating half: look the digest up, then link to the found blob or to a fresh one. */
    method StoreBody(p: Path, body: Bytes) returns (o: Outcome)
      requires UniqueHashes(filedata) && FileName(filecount) !in filedata
      modifies this
      ensures (Contents(), o) == Stored(old(Contents()), p, body)
    {
      var hash := Hash(body);
      var found := set f | f in filedata && filedata[f].filehash == hash;
      if |found| == 0 {
        assert forall f :: f in filedata && filedata[f].filehash == hash ==> f in found;
        var name := FileName(filecount);
        blobs := blobs[name := body];
        var ok := OsSymlink(name, p);
        if !ok {
          return UploadFailed;
        }
        filedata := filedata[name := FileRow(hash, 1)];
        filecount := filecount + 1;
      } else {
        var name :| name in found;
        ByHashFinds(filedata, name);
        var ok := OsSymlink(name, p);
        if !ok {
          return UploadFailed;
        }
        var owners := filedata[name].numowners + 1;
        AddOwnerIsUpdate(filedata, name, owners);
        filedata := SetOwnersByHash(filedata, hash, owners);
      }
      o := Ok;
    }

    // ----- Sharing

    /** The first loop of `sharerUpload`: every sharee's link is unlinked and its place remembered. */
    method UnlinkSharees(sharer: Name, origpath: Path) returns (ok: bool, shareeList: seq<Path>)
      requires Valid(Contents())
      modifies this`tree
      ensures ok && Distinct(shareeList) && Places(shareeList) == ShareesOf(sharedata, sharer, origpath)
      ensures tree == old(tree) - Places(shareeList)
    {
      ghost var s := Contents();
      var rows := ShareesOf(sharedata, sharer, origpath);
      ghost var sharees := rows;
      shareeList := [];
      while rows != {}
        invariant rows !! Places(shareeList) && rows + Places(shareeList) == sharees
        invariant Distinct(shareeList)
        invariant tree == s.tree - Places(shareeList)
      {
        var k :| k in rows;
        DropSharees(s, Places(shareeList));
        DropSharees(s, sharees);
        EntryFound(Contents(), k);
        rows := rows - {k};
        PlacesAppend(shareeList, k);
        DropOneMore(s.tree, Places(shareeList), k);
        shareeList := shareeList + [k];
        ok := OsRemove(k);
        if !ok {
          return false, shareeList;
        }
      }
      ok := true;
    }

    /** The sharer has a row for the place, or is an uploader that `checkpath` let through to somebody
        else's shared file; then there is no sharee to unlink. */
    method SharerUpload(sharer: Name, origpath: Path, body: Bytes) returns (o: Outcome)
      requires Valid(Contents())
      requires SharedFrom(Contents(), sharer, origpath) || OverSomebodysShare(Contents(), sharer, origpath)
      modifies this
      ensures Contents() == SharerUploaded(old(Contents()), sharer, origpath, body)
      ensures old(SharedFrom(Contents(), sharer, origpath)) ==> Valid(Contents())
      ensures o == Ok
    {
      ghost var s := Contents();
      var ok, shareeList := UnlinkSharees(sharer, origpath);
      if !ok {
        return RemoveFailed;
      }
      MiddleOfSharerUpload(s, sharer, origpath, body);
      CoreTable(Contents());
      var _ := UploadHelper(origpath, sharer, body);
      if origpath !in tree || !tree[origpath].Link? {
        return NoSuchResource;
      }
      Relink(shareeList, tree[origpath].target, s, sharer, origpath, body);
      if SharedFrom(s, sharer, origpath) {
        SharerUploadWorks(s, sharer, origpath, body);
      }
      o := Ok;
    }

    /** The second loop of `sharerUpload`: every sharee gets its link back. */
    method Relink(shareeList: seq<Path>, realfile: string, ghost s: State, ghost sharer: Name, ghost p: Path, ghost body: Bytes)
      requires Valid(s)
      requires Places(shareeList) == ShareesOf(s.sharedata, sharer, p)
      requires Distinct(shareeList)
      requires Contents() == Uploaded(s.(tree := s.tree - Places(shareeList)), p, sharer, body).0
      requires p in tree && tree[p] == Link(realfile)
      modifies this`tree
      ensures tree == old(tree) + LinksTo(Places(shareeList), Link(realfile))
    {
      ghost var m := Contents();
      ghost var n := Link(realfile);
      assert tree == m.tree + LinksTo({}, n);
      for i := 0 to |shareeList|
        invariant tree == m.tree + LinksTo(Places(shareeList[..i]), n)
      {
        ghost var done := Places(shareeList[..i]);
        var k := shareeList[i];
        NextPlace(shareeList, i);
        assert k in ShareesOf(s.sharedata, sharer, p) && SharedFrom(s, sharer, p);
        PlaceAwaits(s, m, sharer, p, body, done, k, n);
        LinkOneMore(m.tree, done, k, n);
        var _ := OsSymlink(realfile, k);
      }
      assert shareeList[..|shareeList|] == shareeList;
    }

    method GetPerms(p: Path, sharee: Name) returns (perm: Option<int>)
      ensures perm == if p in sharedata && sharedata[p].sharee == sharee then Some(sharedata[p].perm) else None
    {
      perm := if p in sharedata && sharedata[p].sharee == sharee then Some(sharedata[p].perm) else None;
    }

    // ----- The handlers

    method UploadHandler(p: Path, u: Name, body: Bytes) returns (o: Outcome)
      requires Valid(Contents())
      modifies this
      ensures (Contents(), o) == UploadStep(old(Contents()), u, p, body)
      ensures Valid(Contents()) <==> (o == Ok ==> KeepsInvariant(old(Contents()), Upload(u, p, body)))
      ensures o == Exited <==> u in old(users) && Allowed(p, u) && p[0] != u && p in old(sharedata)
    {
      ghost var s := Contents();
      StepValidIff(s, Upload(u, p, body));
      UploadExitsExactly(s, u, p, body);
      if u !in users {
        return Reauth;
      }
      CheckPathDecides(userfs, p, u);
      if !CheckPath(userfs, p, u) {
        return OutsideRoot;
      }
      match IsSharedFile(sharedata, p) {
        case Unshared =>
          CoreTable(s);
          o := UploadHelper(p, u, body);
        case AsSharer =>
          SharerPlace(s, p);
          o := SharerUpload(u, p, body);
        case AsSharee =>
          ShareePlace(s, p);
          var perm := GetPerms(p, u);
          if perm.None? {
            return Exited;
          }
          if perm.value == 0 {
            return PermissionDenied;
          }
          o := SharerUpload(sharedata[p].sharer, sharedata[p].origpath, body);
      }
    }

    method RemoveHandler(p: Path, u: Name) returns (o: Outcome)
      requires Valid(Contents())
      modifies this
      ensures (Contents(), o) == RemoveStep(old(Contents()), u, p)
      ensures Valid(Contents()) <==> (o == Ok ==> KeepsInvariant(old(Contents()), Remove(u, p)))
      ensures o != RemoveFailed
    {
      ghost var s := Contents();
      if u !in users {
        return Reauth;
      }
      CheckPathDecides(userfs, p, u);
      if !CheckPath(userfs, p, u) {
        return OutsideRoot;
      }
      if Stat(tree, blobs, p).Missing? {
        return NoSuchResource;
      }
      RemoveAnswers(s, u, p);
      match IsSharedFile(sharedata, p) {
        case Unshared =>
          o := RemovePath(p, u);
        case AsSharee =>
          o := RemoveShare(p, u);
        case AsSharer =>
          var ok := UnshareAll(p, u);
          if !ok {
            return RemoveFailed;
          }
          o := RemovePath(p, u);
      }
    }

    /** The part of `removeHandler` for a share: the link goes, and the row where it is the user's. */
    method RemoveShare(p: Path, u: Name) returns (o: Outcome)
      modifies this
      ensures var s := old(Contents());
              if !CanRemove(KindsOf(s.tree), p) then Contents() == s && o == RemoveFailed
              else && o == Ok
                   && Contents() == s.(tree := s.tree - {p},
                                       sharedata := if p in s.sharedata && s.sharedata[p].sharee == u then s.sharedata - {p} else s.sharedata)
    {
      var ok := OsRemove(p);
      if !ok {
        return RemoveFailed;
      }
      if p in sharedata && sharedata[p].sharee == u {
        sharedata := sharedata - {p};
      }
      o := Ok;
    }

    /** The first loop of `removeHandler` on a shared file: collect the sharees' places. */
    method ListSharees(p: Path, u: Name) returns (shareeList: seq<Path>)
      ensures Distinct(shareeList) && Places(shareeList) == ShareesOf(sharedata, u, p)
    {
      var rows := ShareesOf(sharedata, u, p);
      ghost var gone := rows;
      shareeList := [];
      while rows != {}
        invariant rows !! Places(shareeList) && rows + Places(shareeList) == gone
        invariant Distinct(shareeList)
      {
        var k :| k in rows;
        PlacesAppend(shareeList, k);
        shareeList := shareeList + [k];
        rows := rows - {k};
      }
    }

    /** The second loop: unlink each and delete its row. */
    method UnshareAll(p: Path, u: Name) returns (ok: bool)
      requires Valid(Contents())
      modifies this
      ensures ok
      ensures var gone := ShareesOf(old(sharedata), u, p);
              Contents() == old(Contents()).(tree := old(tree) - gone, sharedata := old(sharedata) - gone)
    {
      ghost var s := Contents();
      var shareeList := ListSharees(p, u);
      assert Places(shareeList[..0]) == {};
      assert s.tree - Places(shareeList[..0]) == s.tree;
      assert s.sharedata - Places(shareeList[..0]) == s.sharedata;
      for i := 0 to |shareeList|
        invariant Contents() == s.(tree := s.tree - Places(shareeList[..i]), sharedata := s.sharedata - Places(shareeList[..i]))
      {
        ghost var done := Places(shareeList[..i]);
        var k := shareeList[i];
        NextPlace(shareeList, i);
        DropShares(s, done);
        assert Coherent(Contents(), k);
        EntryFound(Contents(), k);
        DropOneMore(s.tree, done, k);
        DropOneMore(s.sharedata, done, k);
        var removed := OsRemove(k);
        if !removed {
          return false;
        }
        if k in sharedata && sharedata[k].sharer == u && sharedata[k].origpath == p {
          sharedata := sharedata - {k};
        }
      }
      assert shareeList[..|shareeList|] == shareeList;
      ok := true;
    }

    method ShareHandler(p: Path, sharee: Name, permissions: string, u: Name) returns (o: Outcome)
      modifies this
      ensures (Contents(), o) == ShareStep(old(Contents()), u, p, sharee, permissions)
      ensures Valid(old(Contents())) ==>
                (Valid(Contents()) <==> (o == Ok ==> KeepsInvariant(old(Contents()), Share(u, p, sharee, permissions)))) && o != CannotCreate
    {
      ghost var s := Contents();
      if Valid(s) {
        ShareAnswers(s, u, p, sharee, permissions);
      }
      if u !in users {
        return Reauth;
      }
      CheckPathDecides(userfs, p, u);
      if !CheckPath(userfs, p, u) {
        return OutsideRoot;
      }
      if u == sharee {
        return SelfShare;
      }
      var perm := PermOf(permissions);
      if perm.None? {
        return BadPermission;
      }
      if !HasRow(users, unnamed, sharee) {
        return NoSuchUser;
      }
      if Stat(tree, blobs, p).Missing? {
        return NoSuchResource;
      }
      UnderSharedDirDecides(userfs, p, u);
      if UnderSharedDir(userfs, p, u) {
        return ReservedDir;
      }
      if |Matching(sharedata, u, sharee, p)| == 1 {
        return AlreadyShared;
      }
      SearchEndsExactly(s, sharee, BaseName(p));
      if Endless(sharee, BaseName(p)) || Stat(tree, blobs, SharedDir(sharee)) !in {Here(true), Missing} {
        return Hangs;
      }
      o := PlaceShare(p, sharee, perm.value, u);
    }

    /** The rest of `shareHandler`: a name for the sharee, then the link and the row. */
    method PlaceShare(p: Path, sharee: Name, perm: int, u: Name) returns (o: Outcome)
      requires p != [] && CanEnd(Contents(), sharee, BaseName(p))
      modifies this
      ensures (Contents(), o) == SharedAt(old(Contents()), u, p, sharee, perm, SearchedPath(old(Contents()), sharee, p))
    {
      var filename := FindName(sharee, BaseName(p));
      o := LinkSharee(p, SharedDir(sharee) + [filename], sharee, perm, u);
    }

    /** The end of `shareHandler`: the owner's link is read and put at the sharee's new place. */
    method LinkSharee(p: Path, k: Path, sharee: Name, perm: int, u: Name) returns (o: Outcome)
      requires p != []
      modifies this
      ensures (Contents(), o) == SharedAt(old(Contents()), u, p, sharee, perm, k)
    {
      match Lookup(KindsOf(tree), p) {
        case Here(false) =>
          if p !in tree {
            return CannotCreate;
          }
          var ok := OsSymlink(tree[p].target, k);
          if !ok {
            return CannotCreate;
          }
          sharedata := sharedata[k := ShareRow(u, sharee, p, perm)];
          o := Ok;
        case Here(true) => o := NotAFile;
        case _ => o := NoSuchResource;
      }
    }

    /** The name search: try the name itself, then `1name`, `2name`, ... until Stat finds nothing. Where it
        can end, it does, because each name that is taken is passed only once. */
    method FindName(sharee: Name, filename: Name) returns (name: Name)
      requires CanEnd(Contents(), sharee, filename)
      ensures name == Candidate(filename, FirstMissing(Contents(), sharee, filename, 0))
    {
      ghost var s := Contents();
      var dir := SharedDir(sharee);
      var i: nat := 1;
      name := filename;
      var free := Stat(tree, blobs, dir + [name]).Missing?;
      while !free
        invariant i >= 1 && name == Candidate(filename, i - 1)
        invariant free <==> StatCandidate(s, sharee, filename, i - 1).Missing?
        invariant forall j: nat :: j < i - 1 ==> !StatCandidate(s, sharee, filename, j).Missing?
        decreases Pending(KindsOf(tree), dir, filename, i - 1)
      {
        TakenInKinds(s, sharee, filename, i - 1);
        PendingShrinks(KindsOf(tree), dir, filename, i - 1);
        name := Candidate(filename, i);
        free := Stat(tree, blobs, dir + [name]).Missing?;
        i := i + 1;
      }
      FirstMissingIs(s, sharee, filename, i - 1);
    }

    method UnshareHandler(p: Path, sharee: Name, u: Name) returns (o: Outcome)
      requires Valid(Contents())
      modifies this
      ensures (Contents(), o) == UnshareStep(old(Contents()), u, p, sharee)
      ensures Valid(Contents()) && o != RemoveFailed
    {
      ghost var s := Contents();
      UnshareKeepsValid(s, u, p, sharee);
      if u !in users {
        return Reauth;
      }
      CheckPathDecides(userfs, p, u);
      if !CheckPath(userfs, p, u) {
        return OutsideRoot;
      }
      if u == sharee {
        return SelfShare;
      }
      if !HasRow(users, unnamed, sharee) {
        return NoSuchUser;
      }
      var rows := Matching(sharedata, u, sharee, p);
      if |rows| != 1 {
        return NotShared;
      }
      var k :| k in rows;
      MatchingOne(s, u, sharee, p, k);
      var ok := OsRemove(k);
      if !ok {
        return RemoveFailed;
      }
      sharedata := sharedata - rows;
      o := Ok;
    }

    method ChpermHandler(p: Path, sharee: Name, newperm: string, u: Name) returns (o: Outcome)
      requires Valid(Contents())
      modifies this
      ensures (Contents(), o) == ChpermStep(old(Contents()), u, p, sharee, newperm)
      ensures Valid(Contents())
    {
      ChpermKeepsValid(Contents(), u, p, sharee, newperm);
      if u !in users {
        return Reauth;
      }
      CheckPathDecides(userfs, p, u);
      if !CheckPath(userfs, p, u) {
        return OutsideRoot;
      }
      UnderSharedDirDecides(userfs, p, u);
      if UnderSharedDir(userfs, p, u) {
        return ReservedDir;
      }
      if Stat(tree, blobs, p).Missing? {
        return NoSuchResource;
      }
      var rows := Matching(sharedata, u, sharee, p);
      if |rows| == 0 {
        return NotShared;
      }
      var perm := PermOf(newperm);
      if perm.None? {
        return BadPermission;
      }
      sharedata := WithPerm(sharedata, rows, perm.value);
      o := Ok;
    }

    method MkdirHandler(p: Path, u: Name) returns (o: Outcome)
      requires Valid(Contents())
      modifies this
      ensures (Contents(), o) == MkdirStep(old(Contents()), u, p)
      ensures Valid(Contents()) <==> (o == Ok ==> KeepsInvariant(old(Contents()), Mkdir(u, p)))
    {
      StepValidIff(Contents(), Mkdir(u, p));
      if u !in users {
        return Reauth;
      }
      CheckPathDecides(userfs, p, u);
      if !CheckPath(userfs, p, u) {
        return OutsideRoot;
      }
      var ok := OsMkdir(p);
      o := if ok then Ok else CannotCreate;
    }

    method SignupHandler(username: string, password: string) returns (o: Outcome)
      requires Valid(Contents())
      modifies this
      ensures (Contents(), o) == SignupStep(old(Contents()), username, password)
      ensures Valid(Contents())
      ensures o == Exited <==> |password| >= 6 && '/' !in username && username !in old(unnamed)
                               && (username in {"", ".", ".."} || '\0' in username)
    {
      ghost var s := Contents();
      SignupKeepsValid(s, username, password);
      if (IsName(username) && username in users) || username in unnamed {
        return SignupRefused;
      }
      if |username| < 5 && |username| > 16 {
        return SignupRefused;
      }
      if |password| < 6 {
        return SignupRefused;
      }
      if '/' in username {
        return SignupRefused;
      }
      if !NamesDir(username) {
        unnamed := unnamed + {username};
        return Exited;
      }
      SignupTree(s, username);
      users := users + {username};
      RootPlace(s, username);
      var ok := OsMkdir(Root(username));
      if !ok {
        return Exited;
      }
      ok := OsMkdir(SharedDir(username));
      if !ok {
        return Exited;
      }
      o := Ok;
    }

    method DownloadHandler(p: Path, u: Name) returns (body: Option<Bytes>)
      ensures body == DownloadStep(Contents(), u, p)
    {
      CheckPathDecides(userfs, p, u);
      if u !in users || !CheckPath(userfs, p, u) {
        return None;
      }
      if Lookup(KindsOf(tree), p) == Here(false) && p in tree && tree[p].Link? {
        var name := tree[p].target;
        if name in blobs {
          return Some(blobs[name]);
        }
      }
      body := None;
    }

    /** ioutil.ReadDir: the entries of a directory, sorted by name. */
    method ReadDir(p: Path) returns (list: seq<DirEnt>)
      ensures Sorted(list) && Elements(list) == Entries(tree, p)
    {
      EntryNamesApart(tree, p);
      list := SortEntries(Entries(tree, p));
    }

    method ListHandler(p: Path, u: Name) returns (entries: Option<seq<DirEnt>>)
      ensures entries.Some? <==> ListStep(Contents(), u, p).Some?
      ensures entries.Some? ==> Sorted(entries.value) && Elements(entries.value) == ListStep(Contents(), u, p).value
      ensures entries.Some? ==> forall i :: 0 < i < |entries.value| ==> Before(entries.value[i - 1].name, entries.value[i].name)
    {
      CheckPathDecides(userfs, p, u);
      if u !in users || !CheckPath(userfs, p, u) || Lookup(KindsOf(tree), p) != Here(true) {
        return None;
      }
      var list := ReadDir(p);
      forall i | 0 < i < |list| ensures Before(list[i - 1].name, list[i].name) {
        LessExactly(list[i - 1].name, list[i].name);
      }
      entries := Some(list);
    }
  }

  /** A clean shutdown and the next start. The tables, directories and blobs are on disk and are handed
      over as they are; only the counter lives in memory and comes back through the finalizer's text. */
  method Restart(srv: Server) returns (next: Server)
    ensures fresh(next) && next.Contents() == srv.Contents() && next.userfs == srv.userfs
  {
    var counter := srv.Finalizer();
    next := new Server(
      srv.userfs,
      State(srv.users, srv.unnamed, srv.tree, srv.blobs, srv.filedata, srv.sharedata, 0),
      counter);
  }

  // ----- Proof steps of the methods above

  /** UPDATE filedata SET numowners = n WHERE filehash = h */
  function SetOwnersByHash(filedata: map<string, FileRow>, h: Digest, n: int): map<string, FileRow> {
    map f | f in filedata :: if filedata[f].filehash == h then filedata[f].(numowners := n) else filedata[f]
  }

  /** Digests being unique, the update by digest touches one row. */
  lemma AddOwnerIsUpdate(filedata: map<string, FileRow>, f: string, n: int)
    requires UniqueHashes(filedata) && f in filedata
    ensures SetOwnersByHash(filedata, filedata[f].filehash, n) == filedata[f := filedata[f].(numowners := n)]
  {
    forall g <- filedata ensures filedata[g].filehash == filedata[f].filehash ==> g == f {
      assert HashesApart(filedata, f, g);
    }
  }

  lemma ShareAnswers(s: State, u: Name, p: Path, sharee: Name, perm: string)
    requires Valid(s)
    ensures var t := ShareStep(s, u, p, sharee, perm);
            (Valid(t.0) <==> (t.1 == Ok ==> KeepsInvariant(s, Share(u, p, sharee, perm)))) && t.1 != CannotCreate
  {
    StepValidIff(s, Share(u, p, sharee, perm));
    ShareNeverStuck(s, u, p, sharee, perm);
  }

  lemma RemoveAnswers(s: State, u: Name, p: Path)
    requires Valid(s)
    ensures var t := RemoveStep(s, u, p);
            (Valid(t.0) <==> (t.1 == Ok ==> KeepsInvariant(s, Remove(u, p)))) && t.1 != RemoveFailed
  {
    StepValidIff(s, Remove(u, p));
    RemoveNeverStuck(s, u, p);
  }

  /** An uploader to somebody else's shared file: `checkpath` let it through, its root is another one. */
  predicate OverSomebodysShare(s: State, u: Name, p: Path) {
    u in s.users && Allowed(p, u) && p[0] != u && IsSharedFile(s.sharedata, p).AsSharer?
  }

  /** With the sharees' links gone the tables are in order and the upload will leave a link. */
  lemma MiddleOfSharerUpload(s: State, u: Name, p: Path, body: Bytes)
    requires Valid(s) && (SharedFrom(s, u, p) || OverSomebodysShare(s, u, p))
    ensures var d := s.(tree := s.tree - ShareesOf(s.sharedata, u, p));
            var t := Uploaded(d, p, u, body).0;
            Core(d) && p in t.tree && t.tree[p].Link?
  {
    if SharedFrom(s, u, p) {
      UploadUnlinked(s, u, p, body);
    } else {
      SharerPlace(s, p);
      SharedPlace(s, p[0], p);
      NoShareesFound(s, u, p);
      assert s.tree - {} == s.tree;
      UnconfinedUploadOkExactly(s, u, p, body);
      NobodyRelinked(s, u, p, body);
      LinkFound(s, p);
      EntryFound(s, p);
      ClearedIsCreatable(s, p, u);
    }
  }

  /** While sharees are being relinked, the next one's place is free. */
  lemma PlaceAwaits(s: State, m: State, sharer: Name, p: Path, body: Bytes, done: set<Path>, k: Path, n: Node)
    requires Valid(s) && SharedFrom(s, sharer, p)
    requires m == Uploaded(s.(tree := s.tree - ShareesOf(s.sharedata, sharer, p)), p, sharer, body).0
    requires p in m.tree && m.tree[p] == n && n.Link?
    requires done <= ShareesOf(s.sharedata, sharer, p) && k in ShareesOf(s.sharedata, sharer, p) && k !in done
    ensures CanCreate(KindsOf(m.tree + LinksTo(done, n)), k)
  {
    var t := m.(tree := m.tree + LinksTo(done, n));
    SharedPlace(s, sharer, p);
    UploadUnlinked(s, sharer, p, body);
    LinkRow(m, p);
    RelinkKeepsCore(m, done, n);
    assert ShareRowOk(m, k);
    assert RootsOk(t, k[0]);
    assert Parent(k) == SharedDir(k[0]);
    TreeClosed(t);
    CreatePlace(KindsOf(t.tree), k);
  }

  lemma EntryNamesApart(tree: map<Path, Node>, p: Path)
    ensures NamesApart(Entries(tree, p))
  {
    forall q | q in tree && q != [] && Parent(q) == p ensures q == p + [BaseName(q)] {
    }
  }

  lemma FirstMissingIs(s: State, sharee: Name, f: Name, n: nat)
    requires CanEnd(s, sharee, f) && StatCandidate(s, sharee, f, n).Missing?
    requires forall j: nat :: j < n ==> !StatCandidate(s, sharee, f, j).Missing?
    ensures FirstMissing(s, sharee, f, 0) == n
  {
    var m := FirstMissing(s, sharee, f, 0);
    assert n < m ==> !StatCandidate(s, sharee, f, n).Missing?;
  }

  lemma RootPlace(s: State, u: Name)
    requires TreeOk(s) && u !in s.users && '\0' !in u
    ensures CanCreate(KindsOf(s.tree), Root(u))
    ensures CanCreate(KindsOf(s.tree[Root(u) := Dir]), SharedDir(u))
  {
    SignupTree(s, u);
    TreeClosed(s);
    CreatePlace(KindsOf(s.tree), Root(u));
    var kinds := KindsOf(s.tree[Root(u) := Dir]);
    assert Parent(SharedDir(u)) == Root(u) && Parent(Root(u)) == [];
    assert Lookup(kinds, []) == Here(true);
    assert Lookup(kinds, Root(u)) == Here(true);
  }
}
