/** The server's persistent state - directory tree, file store, the two tables and the counter -
    with the file-system primitives the handlers use and the invariant that ties the parts together. */
module Store {
  import opened Decimal
  import opened Paths

  newtype byte = x: int | 0 <= x < 256

  type Bytes = seq<byte>

  /** A collision-free digest: base64 of SHA-1, taken to be injective. */
  datatype Digest = DigestOf(body: Bytes)

  function Hash(body: Bytes): Digest {
    DigestOf(body)
  }

  /** An entry below userfs: a directory, or a symbolic link to the named file of the file store. */
  datatype Node = Dir | Link(target: string)

  /** A filedata row; the table is keyed by filename. */
  datatype FileRow = FileRow(filehash: Digest, numowners: int)

  /** A sharedata row; the table is keyed by shareepath. */
  datatype ShareRow = ShareRow(sharer: Name, sharee: Name, origpath: Path, perm: int)

  /** The rows of userdata are in two parts: `users` have names that can name a directory; the names "",
      "." and "..", and those that hold a NUL, are in `unnamed`. */
  datatype State = State(
    users: set<Name>,
    unnamed: set<string>,
    tree: map<Path, Node>,
    blobs: map<string, Bytes>,
    filedata: map<string, FileRow>,
    sharedata: map<Path, ShareRow>,
    filecount: int)

  /** What REINITIALIZE_ALL.sh leaves behind. */
  const INITIAL := State({}, {}, map[], map[], map[], map[], 1)

  // ----- Paths in the tree

  function Parent(p: Path): Path
    requires p != []
  {
    p[..|p| - 1]
  }

  function Root(u: Name): Path {
    [u]
  }

  function SharedDir(u: Name): Path {
    [u, SHARED]
  }

  /** In somebody's Shared_with_me directory, component by component. */
  predicate InShared(p: Path) {
    |p| >= 2 && p[1] == SHARED
  }

  /** What `checkpath` decides: the first component below userfs starts with the user name. */
  predicate Allowed(p: Path, u: Name) {
    p != [] && u <= p[0]
  }

  /** What the string-prefix test against the user's Shared_with_me directory decides. */
  predicate Reserved(p: Path, u: Name) {
    |p| >= 2 && p[0] == u && SHARED <= p[1]
  }

  /** The test agrees with its documentation on this request: a path that passes is in the root. */
  predicate Confined(p: Path, u: Name) {
    Allowed(p, u) ==> p[0] == u
  }

  // ----- File-system primitives

  /** Which entries exist, and whether each is a directory. */
  type Kinds = map<Path, bool>

  function KindsOf(tree: map<Path, Node>): Kinds {
    map p | p in tree :: tree[p].Dir?
  }

  /** No component holds a NUL character. Every file-system call refuses any other path outright, with an
      error that does not say that nothing is there. */
  predicate NoNul(p: Path)
    decreases |p|
  {
    p == [] || ('\0' !in p[|p| - 1] && NoNul(Parent(p)))
  }

  datatype Found = Missing | NotDir | Invalid | Here(isDir: bool)

  /** Component-by-component lookup of an entry. Links lead to no directory, so none is gone through. */
  function Lookup(kinds: Kinds, p: Path): Found
    decreases |p|
  {
    if p == [] then Here(true)
    else if !NoNul(p) then Invalid
    else match Lookup(kinds, Parent(p))
      case Here(true) => if p in kinds then Here(kinds[p]) else Missing
      case Here(false) => NotDir
      case other => other
  }

  predicate EmptyDir(kinds: Kinds, p: Path) {
    forall q <- kinds :: !(|q| == |p| + 1 && p <= q)
  }

  /** Whether symlink and mkdir can create the entry. */
  predicate CanCreate(kinds: Kinds, p: Path) {
    p != [] && NoNul(p) && p !in kinds && Lookup(kinds, Parent(p)) == Here(true)
  }

  /** Whether os.Remove succeeds on the entry. */
  predicate CanRemove(kinds: Kinds, p: Path) {
    p in kinds && match Lookup(kinds, p)
      case Here(isDir) => isDir ==> EmptyDir(kinds, p)
      case _ => false
  }

  /** The link that is in the way of a path dangles. */
  predicate ThroughDangling(tree: map<Path, Node>, blobs: map<string, Bytes>, p: Path)
    decreases |p|
  {
    p != [] &&
    match Lookup(KindsOf(tree), Parent(p))
    case Here(false) => Parent(p) in tree && tree[Parent(p)].Link? && tree[Parent(p)].target !in blobs
    case NotDir => ThroughDangling(tree, blobs, Parent(p))
    case _ => false
  }

  /** Lstat: going through a link to a file is ENOTDIR, through one that dangles nothing is there. */
  function Lstat(tree: map<Path, Node>, blobs: map<string, Bytes>, p: Path): Found {
    match Lookup(KindsOf(tree), p)
    case NotDir => if ThroughDangling(tree, blobs, p) then Missing else NotDir
    case other => other
  }

  /** Stat follows a final link; a dangling one does not exist. */
  function Stat(tree: map<Path, Node>, blobs: map<string, Bytes>, p: Path): Found {
    match Lstat(tree, blobs, p)
    case Here(false) => if p in tree && tree[p].Link? && tree[p].target in blobs then Here(false) else Missing
    case other => other
  }

  function FileName(n: int): string {
    "file" + Itoa(n)
  }

  function FileNames(n: int): set<string> {
    set k | 1 <= k < n :: FileName(k)
  }

  // ----- The invariant

  /** Every entry belongs to a registered user and sits in a directory; every user has a root and a
      Shared_with_me directory. */
  predicate TreeOk(s: State) {
    && (forall u {:trigger RootsOk(s, u)} | u in s.users :: RootsOk(s, u))
    && (forall p {:trigger EntryOk(s, p)} | p in s.tree :: EntryOk(s, p))
  }

  predicate RootsOk(s: State, u: Name) {
    && Root(u) in s.tree && s.tree[Root(u)].Dir?
    && SharedDir(u) in s.tree && s.tree[SharedDir(u)].Dir?
  }

  predicate EntryOk(s: State, p: Path) {
    && p != [] && p[0] in s.users && NoNul(p)
    && (|p| > 1 ==> Parent(p) in s.tree && s.tree[Parent(p)].Dir?)
  }

  /** The owner links of a stored file: its links outside every Shared_with_me directory. */
  function Owners(tree: map<Path, Node>, f: string): set<Path> {
    set p | p in tree && tree[p] == Link(f) && !InShared(p)
  }

  /** One filedata row: its blob exists and has the recorded digest, its count is the number of its
      owner links, and its name was handed out by the counter. */
  predicate RowOk(s: State, f: string) {
    && f in s.filedata && f in s.blobs
    && s.filedata[f].filehash == Hash(s.blobs[f])
    && s.filedata[f].numowners == |Owners(s.tree, f)| >= 1
    && f in FileNames(s.filecount)
  }

  predicate UniqueHashes(filedata: map<string, FileRow>) {
    forall f, g {:trigger HashesApart(filedata, f, g)} | f in filedata && g in filedata :: HashesApart(filedata, f, g)
  }

  predicate HashesApart(filedata: map<string, FileRow>, f: string, g: string)
    requires f in filedata && g in filedata
  {
    filedata[f].filehash == filedata[g].filehash ==> f == g
  }

  predicate TargetOk(s: State, p: Path)
    requires p in s.tree
  {
    s.tree[p].Link? ==> s.tree[p].target in s.filedata
  }

  predicate FilesOk(s: State) {
    && s.filecount >= 1
    && (forall p {:trigger TargetOk(s, p)} | p in s.tree :: TargetOk(s, p))
    && (forall f {:trigger RowOk(s, f)} | f in s.filedata :: RowOk(s, f))
    && UniqueHashes(s.filedata)
    && s.blobs.Keys <= s.filedata.Keys + {FileName(s.filecount)}
  }

  /** One sharedata row, apart from the links it speaks of. */
  predicate ShareRowOk(s: State, k: Path) {
    && k in s.sharedata
    && var r := s.sharedata[k];
    && |k| == 3 && k[0] == r.sharee && k[1] == SHARED && NoNul(k)
    && r.sharer != r.sharee && r.sharer in s.users && r.sharee in s.users
    && |r.origpath| >= 2 && r.origpath[0] == r.sharer && !(SHARED <= r.origpath[1])
    && (r.perm == 0 || r.perm == 1)
  }

  predicate UniqueShares(sharedata: map<Path, ShareRow>) {
    forall j, k {:trigger SharesApart(sharedata, j, k)} | j in sharedata && k in sharedata :: SharesApart(sharedata, j, k)
  }

  predicate SharesApart(sharedata: map<Path, ShareRow>, j: Path, k: Path)
    requires j in sharedata && k in sharedata
  {
    sharedata[j].sharee == sharedata[k].sharee && sharedata[j].origpath == sharedata[k].origpath ==> j == k
  }

  /** The sharee's link and the owner's link point to the same stored file. */
  predicate Coherent(s: State, k: Path) {
    && k in s.sharedata && k in s.tree && s.tree[k].Link?
    && s.sharedata[k].origpath in s.tree && s.tree[s.sharedata[k].origpath] == s.tree[k]
  }

  /** The part of the invariant that also holds in the middle of a shared upload, while the sharees'
      links are gone: every link that is there under Shared_with_me has a row and agrees with it. */
  predicate Core(s: State) {
    && TreeOk(s)
    && FilesOk(s)
    && SharesOk(s)
  }

  predicate SharesOk(s: State) {
    && (forall k {:trigger ShareRowOk(s, k)} | k in s.sharedata :: ShareRowOk(s, k))
    && UniqueShares(s.sharedata)
    && (forall k {:trigger Coherent(s, k)} | k in s.tree && s.tree[k].Link? && InShared(k) :: Coherent(s, k))
  }

  /** The invariant between handlers. */
  predicate Valid(s: State) {
    && Core(s)
    && (forall k {:trigger Coherent(s, k)} | k in s.sharedata :: Coherent(s, k))
  }
}
