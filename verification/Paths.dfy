/** Clean absolute paths as sequences of components, their text, and what the server's
    string-prefix tests on that text decide. */
module Paths {
  predicate IsName(s: string) {
    s != "" && s != "." && s != ".." && '/' !in s
  }

  /** A directory entry name. */
  type Name = s: string | IsName(s) witness "x"

  /** The components of a clean path. */
  type Path = seq<Name>

  const SHARED: Name := "Shared_with_me"

  const USERFS: Name := "userfs"

  /** The text of a clean absolute path with at least one component. */
  function Render(p: Path): string {
    if p == [] then "" else "/" + p[0] + Render(p[1..])
  }

  /** `d` lies in `b` component by component. */
  predicate Within(d: Path, b: Path) {
    b <= d
  }

  /** `d` agrees with `b` except that its component at b's last position properly extends b's. */
  predicate SiblingExtends(d: Path, b: Path)
    requires b != []
  {
    var n := |b| - 1;
    |d| > n && b[..n] <= d && b[n] < d[n]
  }

  predicate SlashFirst(s: string) {
    s != "" ==> s[0] == '/'
  }

  /** Two slash-free names followed by slash-initial tails, one text a prefix of the other:
      the names nest, and they are equal when the shorter text goes on after its name. */
  lemma NamesNest(a: Name, s: string, b: Name, t: string)
    requires SlashFirst(s) && SlashFirst(t)
    requires a + s <= b + t
    ensures a <= b
    ensures s != "" ==> a == b && s <= t
  {
    var x, y: string := a + s, b + t;
    assert forall i :: 0 <= i < |x| ==> x[i] == y[i];
    assert forall i :: 0 <= i < |a| ==> x[i] == a[i];
    assert forall i :: 0 <= i < |b| ==> y[i] == b[i];
    assert |b| < |y| ==> y[|b|] == t[0];
    assert s != "" ==> x[|a|] == s[0];
    assert |a| <= |b|;
    if s != "" {
      assert |a| == |b|;
      assert a == x[..|a|] == y[..|b|] == b;
      assert s == x[|a|..] && t == y[|b|..];
    }
  }

  lemma RenderSplits(p: Path)
    requires p != []
    ensures Render(p)[1..] == p[0] + Render(p[1..])
    ensures SlashFirst(Render(p[1..]))
  {
  }

  lemma DropSlash(x: string, y: string)
    ensures "/" + x <= "/" + y <==> x <= y
  {
    assert ("/" + x)[1..] == x && ("/" + y)[1..] == y;
    if x <= y {
      assert "/" + y == ("/" + x) + y[|x|..];
    }
  }

  /** Exactly what strings.HasPrefix decides on two clean absolute paths. */
  lemma {:induction false} PrefixDecides(b: Path, d: Path)
    requires b != []
    ensures Render(b) <= Render(d) <==> Within(d, b) || SiblingExtends(d, b)
  {
    if d != [] {
      RenderSplits(b);
      RenderSplits(d);
      var bt: string, dt: string := Render(b[1..]), Render(d[1..]);
      DropSlash(b[0] + bt, d[0] + dt);
      assert Render(b) == "/" + (b[0] + bt) && Render(d) == "/" + (d[0] + dt);
      assert Render(b) <= Render(d) <==> b[0] + bt <= d[0] + dt;
      if b[0] + bt <= d[0] + dt {
        NamesNest(b[0], bt, d[0], dt);
      }
      if |b| == 1 {
        assert b[0] + bt == b[0];
        assert d[0] + dt == d[0] + dt;
        assert b <= d <==> b[0] == d[0];
      } else {
        PrefixDecides(b[1..], d[1..]);
        if b[0] == d[0] {
          SamePrefix(b[0], bt, dt);
          TailsNest(b, d);
        }
      }
    }
  }

  lemma SamePrefix(a: string, s: string, t: string)
    ensures a + s <= a + t <==> s <= t
  {
    assert (a + s)[|a|..] == s && (a + t)[|a|..] == t;
    if s <= t {
      assert a + t == (a + s) + t[|s|..];
    }
  }

  lemma TailsNest(b: Path, d: Path)
    requires |b| >= 2 && d != [] && b[0] == d[0]
    ensures Within(d, b) <==> Within(d[1..], b[1..])
    ensures SiblingExtends(d, b) <==> SiblingExtends(d[1..], b[1..])
  {
    var n := |b| - 1;
    assert b == [b[0]] + b[1..] && d == [d[0]] + d[1..];
    assert b[..n] == [b[0]] + b[1..][..n - 1];
  }
}
