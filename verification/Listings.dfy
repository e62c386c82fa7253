/** Directory listings in the order of their names. */
module Listings {
  import opened Handlers

  /** The order of strings, character by character. */
  predicate Less(a: string, b: string)
    decreases |a|
  {
    b != "" && (a == "" || a[0] < b[0] || (a[0] == b[0] && Less(a[1..], b[1..])))
  }

  lemma {:induction false} LessTotal(a: string, b: string)
    ensures a == b || Less(a, b) || Less(b, a)
    decreases |a|
  {
    if a != "" && b != "" && a[0] == b[0] {
      LessTotal(a[1..], b[1..]);
      assert a == [a[0]] + a[1..] && b == [b[0]] + b[1..];
    }
  }

  lemma {:induction false} LessApart(a: string, b: string)
    requires Less(a, b)
    ensures a != b && !Less(b, a)
    decreases |a|
  {
    if a != "" && a[0] == b[0] {
      LessApart(a[1..], b[1..]);
    }
  }

  lemma {:induction false} LessTransitive(a: string, b: string, c: string)
    requires Less(a, b) && Less(b, c)
    ensures Less(a, c)
    decreases |a|
  {
    if a != "" && a[0] == b[0] == c[0] {
      LessTransitive(a[1..], b[1..], c[1..]);
    }
  }

  /** At some place b goes on with the greater character, or goes on where a ends; before it they agree. */
  ghost predicate Before(a: string, b: string) {
    exists i: nat :: PartsAt(a, b, i)
  }

  predicate PartsAt(a: string, b: string, i: nat) {
    i <= |a| && i < |b| && a[..i] == b[..i] && (i == |a| || a[i] < b[i])
  }

  lemma PartsLater(a: string, b: string, i: nat)
    requires a != "" && b != "" && a[0] == b[0]
    ensures PartsAt(a[1..], b[1..], i) <==> PartsAt(a, b, i + 1)
  {
    if i <= |a| - 1 && i < |b| - 1 {
      assert a[..i + 1] == [a[0]] + a[1..][..i] && b[..i + 1] == [b[0]] + b[1..][..i];
    }
  }

  /** Exactly what the order is, without its recursion: ascending, and a prefix first. */
  lemma {:induction false} LessExactly(a: string, b: string)
    ensures Less(a, b) <==> Before(a, b)
    decreases |a|
  {
    if a == "" || b == "" || a[0] != b[0] {
      assert PartsAt(a, b, 0) <==> b != "" && (a == "" || a[0] < b[0]);
      forall i: nat | i > 0 ensures !PartsAt(a, b, i) {
        assert i <= |a| && i < |b| ==> a[..i][0] == a[0] && b[..i][0] == b[0];
      }
    } else {
      LessExactly(a[1..], b[1..]);
      if Less(a[1..], b[1..]) {
        var i: nat :| PartsAt(a[1..], b[1..], i);
        PartsLater(a, b, i);
      }
      if Before(a, b) {
        var i: nat :| PartsAt(a, b, i);
        assert !PartsAt(a, b, 0);
        PartsLater(a, b, i - 1);
      }
    }
  }

  predicate Sorted(list: seq<DirEnt>) {
    forall i, j :: 0 <= i < j < |list| ==> Less(list[i].name, list[j].name)
  }

  function Elements(list: seq<DirEnt>): set<DirEnt> {
    set e | e in list
  }

  function Insert(e: DirEnt, list: seq<DirEnt>): (r: seq<DirEnt>)
    ensures Elements(r) == Elements(list) + {e}
  {
    if list == [] || Less(e.name, list[0].name) then
      assert forall d <- [e] + list :: d == e || d in list;
      [e] + list
    else
      assert list == [list[0]] + list[1..];
      var rest := Insert(e, list[1..]);
      assert forall d :: d in [list[0]] + rest <==> d == list[0] || d in Elements(rest);
      [list[0]] + rest
  }

  lemma {:induction false} InsertSorts(e: DirEnt, list: seq<DirEnt>)
    requires Sorted(list) && forall d <- list :: d.name != e.name
    ensures Sorted(Insert(e, list))
  {
    if list == [] {
    } else if Less(e.name, list[0].name) {
      forall j | 0 <= j < |list| ensures Less(e.name, list[j].name) {
        if j > 0 {
          LessTransitive(e.name, list[0].name, list[j].name);
        }
      }
    } else {
      var rest := Insert(e, list[1..]);
      InsertSorts(e, list[1..]);
      LessTotal(e.name, list[0].name);
      forall d <- rest ensures Less(list[0].name, d.name) {
        assert d in Elements(rest);
      }
    }
  }

  lemma NoElements(list: seq<DirEnt>)
    ensures list == [] <==> Elements(list) == {}
  {
    if list != [] {
      assert list[0] in Elements(list);
    }
  }

  /** A set of entries has one sorted listing: its order leaves no choice. */
  lemma {:induction false} SortedUnique(a: seq<DirEnt>, b: seq<DirEnt>)
    requires Sorted(a) && Sorted(b) && Elements(a) == Elements(b)
    ensures a == b
    decreases |a|
  {
    NoElements(a);
    NoElements(b);
    if a != [] {
      assert a[0] in Elements(b);
      assert b[0] in Elements(a);
      if a[0] != b[0] {
        LessApart(a[0].name, b[0].name);
        assert false;
      }
      TailElements(a, 0);
      TailElements(b, 0);
      assert a[0..] == a && b[0..] == b;
      SortedUnique(a[1..], b[1..]);
      assert a == [a[0]] + a[1..] && b == [b[0]] + b[1..];
    }
  }

  lemma TailElements(list: seq<DirEnt>, i: nat)
    requires Sorted(list) && i < |list|
    ensures list[i] in Elements(list[i..]) && Elements(list[i + 1..]) == Elements(list[i..]) - {list[i]}
  {
    assert list[i..] == [list[i]] + list[i + 1..];
    forall j | i < j < |list| ensures list[j] != list[i] {
      LessApart(list[i].name, list[j].name);
    }
  }

  lemma NothingEarlier(list: seq<DirEnt>, i: nat, k: nat)
    requires Sorted(list) && i <= k < |list|
    ensures !Less(list[k].name, list[i].name)
  {
    if k > i {
      LessApart(list[i].name, list[k].name);
    } else if Less(list[i].name, list[i].name) {
      LessApart(list[i].name, list[i].name);
    }
  }

  predicate NamesApart(ents: set<DirEnt>) {
    forall d <- ents, e <- ents :: d.name == e.name ==> d == e
  }

  /** What ReadDir hands back. */
  method SortEntries(ents: set<DirEnt>) returns (list: seq<DirEnt>)
    requires NamesApart(ents)
    ensures Sorted(list) && Elements(list) == ents
  {
    list := [];
    var rest := ents;
    while rest != {}
      invariant rest !! Elements(list) && rest + Elements(list) == ents && Sorted(list)
    {
      var e :| e in rest;
      forall d <- list ensures d.name != e.name {
        assert d in Elements(list);
      }
      InsertSorts(e, list);
      list := Insert(e, list);
      rest := rest - {e};
    }
  }
}
