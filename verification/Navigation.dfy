/** The current directory: the server's cdHandler and the client's CD, on path text. */
module Navigation {
  import opened Paths
  import opened Store
  import opened Invariants
  import opened FileServer

  // ----- filepath.Clean and filepath.Abs

  /** The parts of a text between its separators. */
  function Split(s: string): (parts: seq<string>)
    ensures parts != [] && forall c <- parts :: '/' !in c
  {
    if s == "" then [""]
    else
      var rest := Split(s[1..]);
      if s[0] == '/' then [""] + rest else [[s[0]] + rest[0]] + rest[1..]
  }

  /** Empty parts and "." are dropped, ".." takes the last component away and stops at the root. */
  function Clean(parts: seq<string>, stack: Path): Path
    requires forall c <- parts :: '/' !in c
  {
    if parts == [] then stack
    else if parts[0] == "" || parts[0] == "." then Clean(parts[1..], stack)
    else if parts[0] == ".." then Clean(parts[1..], if stack == [] then [] else stack[..|stack| - 1])
    else Clean(parts[1..], stack + [parts[0]])
  }

  /** The clean absolute path a text names, from the working directory. */
  function Abs(cwd: Path, s: string): Path {
    Clean(Split(s), if s != "" && s[0] == '/' then [] else cwd)
  }

  function TrimPrefix(s: string, prefix: string): string {
    if prefix <= s then s[|prefix|..] else s
  }

  // ----- cdHandler

  const OUTSIDE := "You can't go outside of your directory!\n"
  const MISSING := "That resource doesn't exist!\n"

  /** The text for a place below userfs, as cdHandler answers it. */
  function DirText(rel: Path): string {
    "./userfs" + Render(rel) + "/"
  }

  function Below(top: Path, p: Path): Path {
    if top <= p then p[|top|..] else []
  }

  function CdHandler(s: State, cwd: Path, path: string, user: Name): string {
    var base := Abs(cwd, "./userfs/" + user);
    var desired := Abs(cwd, path);
    var top := Abs(cwd, "./userfs");
    if !(Render(base) <= Render(desired)) then OUTSIDE
    else if Stat(s.tree, s.blobs, Below(top, desired)).Missing? then MISSING
    else "./userfs" + TrimPrefix(Render(desired), Render(top)) + "/"
  }

  // ----- Text and components

  lemma {:induction false} RenderAppend(a: Path, b: Path)
    ensures Render(a + b) == Render(a) + Render(b)
  {
    if a == [] {
      assert a + b == b;
    } else {
      assert (a + b)[1..] == a[1..] + b;
      RenderAppend(a[1..], b);
    }
  }

  lemma {:induction false} SplitName(n: string, t: string)
    requires '/' !in n && t != "" && t[0] == '/'
    ensures Split(n + t) == [n] + Split(t)[1..]
    decreases |n|
  {
    if n == "" {
      assert n + t == t;
      assert Split(t)[0] == "";
    } else {
      assert (n + t)[1..] == n[1..] + t;
      SplitName(n[1..], t);
      assert n == [n[0]] + n[1..];
    }
  }

  lemma SplitSlash(t: string)
    ensures Split("/" + t) == [""] + Split(t)
  {
    assert ("/" + t)[1..] == t;
  }

  lemma SplitPart(n: string, t: string)
    requires '/' !in n
    ensures Split(n + ("/" + t)) == [n] + Split(t)
  {
    SplitName(n, "/" + t);
    SplitSlash(t);
  }

  lemma Regroup(x: string, q: seq<string>)
    ensures [""] + ([x] + (q + [""])) == [""] + ([x] + q) + [""]
    ensures ([""] + q + [""])[1..] == q + [""]
  {
  }

  lemma SplitFirst(n: Name, rest: string)
    requires rest != "" && rest[0] == '/'
    ensures Split("/" + (n + rest)) == [""] + ([n] + Split(rest)[1..])
  {
    SplitSlash(n + rest);
    SplitName(n, rest);
  }

  lemma {:induction false} SplitRendered(p: Path)
    ensures Split(Render(p) + "/") == [""] + p + [""]
  {
    if p == [] {
      SplitSlash("");
      assert Render(p) + "/" == "/" + "";
    } else {
      var rest := Render(p[1..]) + "/";
      SplitRendered(p[1..]);
      SplitFirst(p[0], rest);
      Regroup(p[0], p[1..]);
      assert Render(p) + "/" == "/" + (p[0] + rest);
      assert p == [p[0]] + p[1..];
    }
  }

  lemma {:induction false} SplitSlashless(s: string)
    requires '/' !in s
    ensures Split(s) == [s]
    decreases |s|
  {
    if s != "" {
      SplitSlashless(s[1..]);
      assert s == [s[0]] + s[1..];
    }
  }

  lemma {:induction false} CleanNames(names: Path, tail: seq<string>, stack: Path)
    requires forall c <- tail :: '/' !in c
    ensures forall c <- names + tail :: '/' !in c
    ensures Clean(names + tail, stack) == Clean(tail, stack + names)
    decreases |names|
  {
    if names == [] {
      assert names + tail == tail && stack + names == stack;
    } else {
      CleanNames(names[1..], tail, stack + [names[0]]);
      assert (names + tail)[1..] == names[1..] + tail;
      assert stack + names == stack + [names[0]] + names[1..];
    }
  }

  lemma {:induction false} SplitLast(s: string, c: string)
    requires '/' !in c
    ensures Split(s + ("/" + c)) == Split(s) + [c]
    decreases |s|
  {
    SplitSlashless(c);
    if s == "" {
      SplitSlash(c);
      assert s + ("/" + c) == "/" + c;
    } else {
      SplitLast(s[1..], c);
      assert (s + ("/" + c))[1..] == s[1..] + ("/" + c);
    }
  }

  lemma {:induction false} CleanAppend(a: seq<string>, b: seq<string>, stack: Path)
    requires forall c <- a + b :: '/' !in c
    ensures (forall c <- a :: '/' !in c) && (forall c <- b :: '/' !in c)
    ensures Clean(a + b, stack) == Clean(b, Clean(a, stack))
    decreases |a|
  {
    assert forall c <- a :: c in a + b;
    assert forall c <- b :: c in a + b;
    if a == [] {
      assert a + b == b;
    } else {
      assert (a + b)[1..] == a[1..] + b && (a + b)[0] == a[0];
      assert forall c <- a[1..] + b :: c in a + b;
      if a[0] == "" || a[0] == "." {
        CleanAppend(a[1..], b, stack);
      } else if a[0] == ".." {
        CleanAppend(a[1..], b, if stack == [] then [] else stack[..|stack| - 1]);
      } else {
        CleanAppend(a[1..], b, stack + [a[0]]);
      }
    }
  }

  /** Where one more component leads from a place: nowhere, one up, or one down. */
  ghost predicate LeadsTo(from: Path, c: string, to: Path) {
    && (c == "" || c == "." ==> to == from)
    && (c == ".." && from == [] ==> to == [])
    && (c == ".." ==> forall up: Path, last :: from == up + [last] ==> to == up)
    && (IsName(c) ==> to == from + [c])
  }

  lemma CleanOne(c: string, stack: Path)
    requires '/' !in c
    ensures LeadsTo(stack, c, Clean([c], stack))
  {
    forall up: Path, last | stack == up + [last] ensures up == stack[..|stack| - 1] {
    }
  }

  /** What a text names, component by component from its end: a text without a separator leads on from the
      working directory, one after a separator at its start from the top, and one after a separator later
      from wherever the text before leads. */
  lemma AbsExactly(cwd: Path, s: string, c: string)
    requires '/' !in c
    ensures LeadsTo(cwd, c, Abs(cwd, c))
    ensures LeadsTo([], c, Abs(cwd, "/" + c))
    ensures s != "" ==> LeadsTo(Abs(cwd, s), c, Abs(cwd, s + "/" + c))
  {
    SplitSlashless(c);
    CleanOne(c, cwd);
    SplitSlash(c);
    var parts: seq<string> := ["", c];
    assert Split("/" + c) == parts && parts[1..] == [c];
    CleanOne(c, []);
    if s != "" {
      var start: Path := if s[0] == '/' then [] else cwd;
      assert s + "/" + c == s + ("/" + c);
      SplitLast(s, c);
      CleanAppend(Split(s), [c], start);
      CleanOne(c, Abs(cwd, s));
    }
  }

  /** The server's text for a place names that place again. */
  lemma DirTextNames(cwd: Path, rel: Path)
    ensures Abs(cwd, DirText(rel)) == cwd + [USERFS] + rel
  {
    var p := [USERFS] + rel;
    var s := DirText(rel);
    var t := Render(p) + "/";
    assert p[1..] == rel;
    assert s == "." + t;
    assert s[0] == '.';
    SplitRendered(p);
    SplitName(".", t);
    assert Split(t)[1..] == p + [""];
    assert Split(s) == ["."] + (p + [""]);
    assert Split(s)[1..] == p + [""];
    CleanNames(p, [""], cwd);
    assert Clean([""], cwd + p) == cwd + p;
    assert cwd + p == cwd + [USERFS] + rel;
  }

  lemma TopNames(cwd: Path)
    ensures Abs(cwd, "./userfs") == cwd + [USERFS]
  {
    assert "./userfs" == "." + ("/" + "userfs");
    SplitPart(".", "userfs");
    SplitSlashless("userfs");
    var parts: seq<string> := [".", "userfs"];
    assert parts[1..] == [USERFS] + [];
    CleanNames([USERFS], [], cwd);
  }

  lemma BaseNames(cwd: Path, user: Name)
    ensures Abs(cwd, "./userfs/" + user) == cwd + [USERFS, user]
  {
    assert "./userfs/" + user == "." + ("/" + ("userfs" + ("/" + user)));
    SplitPart(".", "userfs" + ("/" + user));
    SplitPart("userfs", user);
    SplitSlashless(user);
    var parts: seq<string> := [".", "userfs", user];
    assert Split("./userfs/" + user) == parts;
    assert ("./userfs/" + user)[0] == '.';
    assert parts[1..] == [USERFS, user] + [];
    CleanNames([USERFS, user], [], cwd);
  }

  // ----- NUL characters

  lemma {:induction false} SplitNoNul(s: string)
    requires '\0' !in s
    ensures forall c <- Split(s) :: '\0' !in c
    decreases |s|
  {
    if s != "" {
      SplitNoNul(s[1..]);
    }
  }

  lemma {:induction false} CleanNoNul(parts: seq<string>, stack: Path)
    requires forall c <- parts :: '/' !in c && '\0' !in c
    requires forall c <- stack :: '\0' !in c
    ensures forall c <- Clean(parts, stack) :: '\0' !in c
    decreases |parts|
  {
    if parts == [] {
    } else if parts[0] == "" || parts[0] == "." {
      CleanNoNul(parts[1..], stack);
    } else if parts[0] == ".." {
      CleanNoNul(parts[1..], if stack == [] then [] else stack[..|stack| - 1]);
    } else {
      CleanNoNul(parts[1..], stack + [parts[0]]);
    }
  }

  /** Text without a NUL names a place without one. */
  lemma PlaceNoNul(cwd: Path, s: string, top: Path)
    requires NoNul(cwd) && '\0' !in s
    ensures NoNul(Below(top, Abs(cwd, s)))
  {
    NoNulAll(cwd);
    SplitNoNul(s);
    CleanNoNul(Split(s), if s != "" && s[0] == '/' then [] else cwd);
    NoNulAll(Below(top, Abs(cwd, s)));
  }

  lemma {:induction false} RenderNoNul(p: Path)
    requires forall c <- p :: '\0' !in c
    ensures '\0' !in Render(p)
  {
    if p != [] {
      RenderNoNul(p[1..]);
    }
  }

  lemma DirTextNoNul(rel: Path)
    requires NoNul(rel)
    ensures '\0' !in DirText(rel)
  {
    NoNulAll(rel);
    RenderNoNul(rel);
  }

  // ----- What cdHandler answers

  /** On request text, `checkpath` accepts exactly the places below userfs whose first component starts
      with the user name: nothing outside userfs, whatever dots and separators the text has. */
  lemma CheckPathText(cwd: Path, path: string, user: Name)
    ensures var desired, top := Abs(cwd, path), cwd + [USERFS];
            Render(Abs(cwd, "./userfs/" + user)) <= Render(desired) <==> top <= desired && Allowed(Below(top, desired), user)
  {
    var desired := Abs(cwd, path);
    var top := cwd + [USERFS];
    var rel := Below(top, desired);
    BaseNames(cwd, user);
    assert cwd + [USERFS, user] == top + Root(user);
    if top <= desired {
      assert desired == top + rel;
      CheckPathDecides(top, rel, user);
    } else {
      PrefixDecides(top + Root(user), desired);
      assert (top + Root(user))[..|top|] == top;
      assert Within(desired, top + Root(user)) ==> top <= desired;
    }
  }

  /** The three names whose userdata row a signup leaves behind before it ends the process: the base of ""
      and "." is userfs itself, that of ".." the server's own directory, and `checkpath` accepts every
      path in it, or beside it under a name that extends it. */
  lemma UnnamedBase(cwd: Path, user: string)
    requires user in {"", ".", ".."}
    ensures Abs(cwd, "./userfs/" + user) == if user == ".." then cwd else cwd + [USERFS]
  {
    assert "./userfs/" + user == "." + ("/" + ("userfs" + ("/" + user)));
    SplitPart(".", "userfs" + ("/" + user));
    SplitPart("userfs", user);
    SplitSlashless(user);
    var parts: seq<string>, tail: seq<string> := [".", "userfs", user], [user];
    assert Split("./userfs/" + user) == parts;
    assert ("./userfs/" + user)[0] == '.';
    assert parts[1..] == [USERFS] + tail;
    CleanNames([USERFS], tail, cwd);
    assert tail[1..] == [] && (cwd + [USERFS])[..|cwd|] == cwd;
  }

  lemma CheckPathUnnamed(cwd: Path, path: string, user: string)
    requires user in {"", ".", ".."}
    ensures var desired, base := Abs(cwd, path), if user == ".." then cwd else cwd + [USERFS];
            Render(Abs(cwd, "./userfs/" + user)) <= Render(desired) <==> Within(desired, base) || (base != [] && SiblingExtends(desired, base))
  {
    var base := if user == ".." then cwd else cwd + [USERFS];
    UnnamedBase(cwd, user);
    if base != [] {
      PrefixDecides(base, Abs(cwd, path));
    }
  }

  /** cdHandler succeeds exactly on the paths checkpath accepts that Stat does not miss, and then
      answers the text of the place. */
  lemma CdAnswers(s: State, cwd: Path, path: string, user: Name)
    ensures var desired, top := Abs(cwd, path), cwd + [USERFS];
            var rel := Below(top, desired);
            CdHandler(s, cwd, path, user) ==
              if !(top <= desired && Allowed(rel, user)) then OUTSIDE
              else if Stat(s.tree, s.blobs, rel).Missing? then MISSING
              else DirText(rel)
  {
    var desired := Abs(cwd, path);
    var top := cwd + [USERFS];
    var rel := Below(top, desired);
    TopNames(cwd);
    CheckPathText(cwd, path, user);
    if top <= desired {
      assert desired == top + rel;
      RenderAppend(top, rel);
      assert Render(desired)[|Render(top)|..] == Render(rel);
    }
  }

  /** And the two texts that are no answer. */
  lemma CdRefusals(s: State, cwd: Path, path: string, user: Name)
    ensures var desired, top := Abs(cwd, path), cwd + [USERFS];
            var rel, answer := Below(top, desired), CdHandler(s, cwd, path, user);
            var accepted := top <= desired && Allowed(rel, user);
            && (answer == "You can't go outside of your directory!\n" <==> !accepted)
            && (answer == "That resource doesn't exist!\n" <==> accepted && Stat(s.tree, s.blobs, rel).Missing?)
  {
    CdAnswers(s, cwd, path, user);
    assert forall rel: Path :: DirText(rel)[0] == '.';
  }

  predicate Succeeds(answer: string) {
    "./" <= answer
  }

  /** A successful answer is a fixed point: asking for it again gives it again. */
  lemma CdFixedPoint(s: State, cwd: Path, path: string, user: Name)
    requires Succeeds(CdHandler(s, cwd, path, user))
    ensures CdHandler(s, cwd, CdHandler(s, cwd, path, user), user) == CdHandler(s, cwd, path, user)
  {
    var top := cwd + [USERFS];
    var rel := Below(top, Abs(cwd, path));
    CdAnswers(s, cwd, path, user);
    DirTextNames(cwd, rel);
    assert Below(top, top + rel) == rel;
    CdAnswers(s, cwd, DirText(rel), user);
  }

  // ----- The client

  /** `CD`: a successful answer becomes the current directory, anything else is printed. */
  function CdStep(s: State, cwd: Path, user: Name, currdir: string, path: string): string {
    var ret := CdHandler(s, cwd, currdir + path, user);
    if ret != "" && Succeeds(ret) then ret else currdir
  }

  /** What is typed in a place leads on from it. */
  lemma TypedLeads(cwd: Path, rel: Path, c: string)
    requires '/' !in c
    ensures LeadsTo(cwd + [USERFS] + rel, c, Abs(cwd, DirText(rel) + c))
  {
    var text := "./userfs" + Render(rel);
    DirTextNames(cwd, rel);
    AbsExactly(cwd, text, "");
    AbsExactly(cwd, text, c);
    assert text + "/" + "" == DirText(rel);
    assert text + "/" + c == DirText(rel) + c;
  }

  /** `cd n` goes one down, to where Stat finds something. */
  lemma CdGoesDown(s: State, cwd: Path, user: Name, rel: Path, n: Name)
    requires Allowed(rel + [n], user) && !Stat(s.tree, s.blobs, rel + [n]).Missing?
    ensures CdStep(s, cwd, user, DirText(rel), n) == DirText(rel + [n])
  {
    TypedLeads(cwd, rel, n);
    CdAnswers(s, cwd, DirText(rel) + n, user);
    assert cwd + [USERFS] + rel + [n] == cwd + [USERFS] + (rel + [n]);
  }

  /** `cd ..` goes one up, and from the top of the user's root nowhere. */
  lemma CdGoesUp(s: State, cwd: Path, user: Name, up: Path, last: Name)
    requires Allowed(up + [last], user) && (up != [] ==> !Stat(s.tree, s.blobs, up).Missing?)
    ensures CdStep(s, cwd, user, DirText(up + [last]), "..") == if up == [] then DirText([last]) else DirText(up)
  {
    TypedLeads(cwd, up + [last], "..");
    CdAnswers(s, cwd, DirText(up + [last]) + "..", user);
    assert cwd + [USERFS] + (up + [last]) == (cwd + [USERFS] + up) + [last];
    assert Abs(cwd, DirText(up + [last]) + "..") == cwd + [USERFS] + up;
    if up == [] {
      assert cwd + [USERFS] + up == cwd + [USERFS] && up + [last] == [last];
      assert OUTSIDE[0] != '.';
    } else {
      assert (up + [last])[0] == up[0];
    }
  }

  class Client {
    const cwd: Path  // the server's working directory
    const user: Name
    var currdir: string

    constructor (cwd: Path, user: Name)
      ensures this.cwd == cwd && this.user == user && currdir == DirText(Root(user))
    {
      this.cwd, this.user := cwd, user;
      currdir := "./userfs/" + user + "/";
      new;
      assert Render(Root(user)) == "/" + user;
    }

    method CD(s: State, path: string)
      modifies this
      ensures currdir == CdStep(s, cwd, user, old(currdir), path)
      ensures AtAllowed(old(currdir), user) ==> AtAllowed(currdir, user)
      ensures NoSibling(s, user) && NoNul(cwd) && '\0' !in path && AtHome(old(currdir), user) ==> AtHome(currdir, user)
    {
      if AtAllowed(currdir, user) {
        StepStaysAllowed(Visit(s, path), cwd, user, currdir);
      }
      if AtHome(currdir, user) && NoSibling(s, user) && NoNul(cwd) && '\0' !in path {
        StepStaysHome(Visit(s, path), cwd, user, currdir);
      }
      var ret := CdHandler(s, cwd, currdir + path, user);
      if ret != "" {
        if Succeeds(ret) {
          currdir := ret;
        }
      }
    }
  }

  /** One CD against the directory tree the server has at that moment. */
  datatype Visit = Visit(s: State, path: string)

  function CdRun(cwd: Path, user: Name, currdir: string, visits: seq<Visit>): string
    decreases |visits|
  {
    if visits == [] then currdir
    else CdRun(cwd, user, CdStep(visits[0].s, cwd, user, currdir, visits[0].path), visits[1..])
  }

  /** The current directory is the text of a place `checkpath` accepts. */
  ghost predicate AtAllowed(currdir: string, user: Name) {
    exists rel: Path :: Allowed(rel, user) && currdir == DirText(rel)
  }

  /** The current directory is the text of a place in the user's root, and of one that can be there: it
      holds no NUL. */
  ghost predicate AtHome(currdir: string, user: Name) {
    exists rel: Path :: Within(rel, Root(user)) && NoNul(rel) && currdir == DirText(rel)
  }

  /** Stat finds nothing in userfs under a name that properly extends the user's. */
  predicate NoSibling(s: State, user: Name) {
    forall p <- s.tree :: |p| == 1 && NoNul(p) && user < p[0] ==> Stat(s.tree, s.blobs, p).Missing?
  }

  /** Where Stat finds nothing, no entry or a link that dangles, it finds nothing below. */
  lemma {:induction false} MissingBelow(s: State, p: Path)
    requires p != [] && NoNul(p) && Stat(s.tree, s.blobs, [p[0]]).Missing?
    ensures Stat(s.tree, s.blobs, p).Missing?
    ensures |p| > 1 ==> Lookup(KindsOf(s.tree), p).Missing? || ThroughDangling(s.tree, s.blobs, p)
    decreases |p|
  {
    if |p| == 1 {
      assert p == [p[0]];
    } else {
      MissingBelow(s, Parent(p));
      TopLookup(s, p[0]);
    }
  }

  lemma TopLookup(s: State, n: Name)
    requires '\0' !in n
    ensures Lookup(KindsOf(s.tree), [n]) == (if [n] in s.tree then Here(s.tree[[n]].Dir?) else Missing)
  {
    var place: Path := [n];
    assert Parent(place) == [] && NoNul(Parent(place)) && NoNul(place);
    assert Lookup(KindsOf(s.tree), Parent(place)) == Here(true);
  }

  lemma StepStaysAllowed(v: Visit, cwd: Path, user: Name, currdir: string)
    requires AtAllowed(currdir, user)
    ensures AtAllowed(CdStep(v.s, cwd, user, currdir, v.path), user)
  {
    CdAnswers(v.s, cwd, currdir + v.path, user);
  }

  /** The place that text without a NUL asks for from home, if cdHandler answers it, is at home. */
  lemma AnsweredPlaceAtHome(s: State, user: Name, rel: Path)
    requires NoSibling(s, user) && NoNul(rel) && Allowed(rel, user) && !Stat(s.tree, s.blobs, rel).Missing?
    ensures Within(rel, Root(user))
  {
    if Stat(s.tree, s.blobs, [rel[0]]).Missing? {
      MissingBelow(s, rel);
    } else {
      var top := [rel[0]];
      NoNulAll(rel);
      NoNulAll(top);
      TopLookup(s, rel[0]);
      assert top in s.tree && !(user < top[0]);
      assert user == rel[0] && Root(user) <= rel;
    }
  }

  lemma StepStaysHome(v: Visit, cwd: Path, user: Name, currdir: string)
    requires AtHome(currdir, user) && NoSibling(v.s, user) && NoNul(cwd) && '\0' !in v.path
    ensures AtHome(CdStep(v.s, cwd, user, currdir, v.path), user)
  {
    var rel := Below(cwd + [USERFS], Abs(cwd, currdir + v.path));
    var here: Path :| Within(here, Root(user)) && NoNul(here) && currdir == DirText(here);
    DirTextNoNul(here);
    PlaceNoNul(cwd, currdir + v.path, cwd + [USERFS]);
    CdAnswers(v.s, cwd, currdir + v.path, user);
    if Allowed(rel, user) && !Stat(v.s.tree, v.s.blobs, rel).Missing? {
      AnsweredPlaceAtHome(v.s, user, rel);
    }
  }

  /** Whatever is typed, every run of CD stays at places `checkpath` accepts. */
  lemma {:induction false} RunStaysAllowed(cwd: Path, user: Name, currdir: string, visits: seq<Visit>)
    requires AtAllowed(currdir, user)
    ensures AtAllowed(CdRun(cwd, user, currdir, visits), user)
    decreases |visits|
  {
    if visits != [] {
      StepStaysAllowed(visits[0], cwd, user, currdir);
      RunStaysAllowed(cwd, user, CdStep(visits[0].s, cwd, user, currdir, visits[0].path), visits[1..]);
    }
  }

  /** While Stat finds nothing under an extending name and no NUL is typed, every run of CD stays in the root. */
  lemma {:induction false} RunStaysHome(cwd: Path, user: Name, currdir: string, visits: seq<Visit>)
    requires AtHome(currdir, user) && NoNul(cwd) && forall v <- visits :: NoSibling(v.s, user) && '\0' !in v.path
    ensures AtHome(CdRun(cwd, user, currdir, visits), user)
    decreases |visits|
  {
    if visits != [] {
      StepStaysHome(visits[0], cwd, user, currdir);
      RunStaysHome(cwd, user, CdStep(visits[0].s, cwd, user, currdir, visits[0].path), visits[1..]);
    }
  }

  lemma DirTextInjective(a: Path, b: Path)
    requires DirText(a) == DirText(b)
    ensures a == b
  {
    DirTextNames([], a);
    DirTextNames([], b);
    assert ([] + [USERFS] + a)[1..] == a && ([] + [USERFS] + b)[1..] == b;
  }

  lemma SiblingSplit(user: Name, n: Name)
    ensures Split(DirText(Root(user)) + ("../" + n)) == [".", "userfs", user, "..", n]
  {
    var a: string := ".." + ("/" + n);
    var b: string := user + ("/" + a);
    var c: string := "userfs" + ("/" + b);
    SplitSlashless(n);
    SplitPart("..", n);
    SplitPart(user, a);
    SplitPart("userfs", b);
    SplitPart(".", c);
    SiblingText(user, n);
  }

  lemma SiblingText(user: Name, n: Name)
    ensures DirText(Root(user)) + ("../" + n)
         == "." + ("/" + ("userfs" + ("/" + (user + ("/" + (".." + ("/" + n)))))))
  {
    assert Render(Root(user)) == "/" + user;
  }

  lemma SiblingClean(cwd: Path, user: Name, n: Name)
    ensures Clean([".", "userfs", user, "..", n], cwd) == cwd + [USERFS, n]
  {
    var parts: seq<string> := [".", "userfs", user, "..", n];
    var tail: seq<string> := ["..", n];
    var stack := cwd + [USERFS, user];
    assert parts[1..] == [USERFS, user] + tail;
    CleanNames([USERFS, user], tail, cwd);
    assert stack[..|stack| - 1] == cwd + [USERFS];
    assert tail[1..] == [n];
    CleanNames([n], [], cwd + [USERFS]);
    assert [n] + [] == [n];
    assert cwd + [USERFS] + [n] == cwd + [USERFS, n];
  }

  /** "../n" from the user's root names the sibling. */
  lemma SiblingNames(cwd: Path, user: Name, n: Name)
    ensures Abs(cwd, DirText(Root(user)) + ("../" + n)) == cwd + [USERFS, n]
  {
    SiblingSplit(user, n);
    SiblingClean(cwd, user, n);
    assert (DirText(Root(user)) + ("../" + n))[0] == '.';
  }

  /** One CD from the user's root goes beside it, to any extending name that Stat does not miss. */
  lemma LeavesHome(s: State, cwd: Path, user: Name, n: Name)
    requires user < n && !Stat(s.tree, s.blobs, [n]).Missing?
    ensures CdStep(s, cwd, user, DirText(Root(user)), "../" + n) == DirText([n])
  {
    SiblingNames(cwd, user, n);
    CdAnswers(s, cwd, DirText(Root(user)) + ("../" + n), user);
    assert cwd + [USERFS, n] == cwd + [USERFS] + [n];
    assert Below(cwd + [USERFS], cwd + [USERFS] + [n]) == [n];
  }

  lemma NotHome(user: Name, n: Name)
    requires n != user
    ensures !AtHome(DirText([n]), user)
  {
    forall rel: Path | DirText([n]) == DirText(rel) ensures !Within(rel, Root(user)) {
      DirTextInjective([n], rel);
    }
  }

  /** No CD without a NUL leaves the root. */
  ghost predicate CdStaysHome(s: State, cwd: Path, user: Name) {
    forall currdir, path | AtHome(currdir, user) && '\0' !in path :: AtHome(CdStep(s, cwd, user, currdir, path), user)
  }

  lemma SiblingLeadsOut(s: State, cwd: Path, user: Name, n: Name)
    requires '\0' !in user && '\0' !in n && user < n && !Stat(s.tree, s.blobs, [n]).Missing?
    ensures !CdStaysHome(s, cwd, user)
  {
    LeavesAndNotHome(s, cwd, user, n);
    assert '\0' !in "../" + n;
  }

  /** Exactly when one CD without a NUL can leave the user's root: when Stat finds something in userfs
      under a name that properly extends the user's. */
  lemma HomeExactlyWithoutSiblings(s: State, cwd: Path, user: Name)
    requires NoNul(cwd) && '\0' !in user
    ensures NoSibling(s, user) <==> CdStaysHome(s, cwd, user)
  {
    if NoSibling(s, user) {
      forall currdir, path | AtHome(currdir, user) && '\0' !in path ensures AtHome(CdStep(s, cwd, user, currdir, path), user) {
        StepStaysHome(Visit(s, path), cwd, user, currdir);
      }
    } else {
      var p :| p in s.tree && |p| == 1 && NoNul(p) && user < p[0] && !Stat(s.tree, s.blobs, p).Missing?;
      assert p == [p[0]];
      NoNulAll(p);
      SiblingLeadsOut(s, cwd, user, p[0]);
    }
  }

  lemma LeavesAndNotHome(s: State, cwd: Path, user: Name, n: Name)
    requires '\0' !in user && user < n && !Stat(s.tree, s.blobs, [n]).Missing?
    ensures AtHome(DirText(Root(user)), user)
    ensures !AtHome(CdStep(s, cwd, user, DirText(Root(user)), "../" + n), user)
  {
    assert Within(Root(user), Root(user)) && NoNul(Root(user));
    LeavesHome(s, cwd, user, n);
    NotHome(user, n);
  }

  /** With a NUL typed, one CD leaves the root of every user, whatever directories there are: Stat refuses
      such a path without saying that nothing is there, and cdHandler answers it. */
  lemma NulLeavesHome(s: State, cwd: Path, user: Name)
    requires '\0' !in user
    ensures AtHome(DirText(Root(user)), user)
    ensures !AtHome(CdStep(s, cwd, user, DirText(Root(user)), "../" + (user + "\0")), user)
  {
    var text: string := user + "\0";
    assert text[|user|] == '\0' && |text| >= 2 && '/' !in text;
    assert IsName(text);
    var n: Name := text;
    assert user == n[..|user|];
    LeavesAndNotHome(s, cwd, user, n);
  }
}
