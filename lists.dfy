/** The list surgery the editor performs on its ordered lists of entities
    (the scene, the selection, a group's children), as functions on sequences.
    Elements are compared by equality, which for entities is reference
    identity. */
module Lists {

  /** No element occurs twice. */
  predicate NoDups<T(==)>(s: seq<T>) {
    forall i, j | 0 <= i < j < |s| :: s[i] != s[j]
  }

  /** Removing one element by value: the first occurrence goes, the rest
      keeps its order; a missing element leaves the list as it was. */
  function RemoveFirst<T(==)>(s: seq<T>, x: T): (r: seq<T>)
    ensures x !in s ==> r == s
    ensures x in s ==> |r| == |s| - 1
  {
    if s == [] then []
    else if s[0] == x then s[1..]
    else [s[0]] + RemoveFirst(s[1..], x)
  }

  /** Removing one element by value takes exactly one x away, when there is
      one, and nothing else. */
  lemma {:induction false} RemoveFirstCounts<T>(s: seq<T>, x: T)
    ensures multiset(RemoveFirst(s, x)) == multiset(s) - multiset{x}
  {
    if s != [] {
      assert s == [s[0]] + s[1..];
      RemoveFirstCounts(s[1..], x);
    }
  }

  /** What RemoveFirst cuts out is exactly the first occurrence of x. */
  lemma {:induction false} RemoveFirstSplits<T>(s: seq<T>, x: T)
    requires x in s
    ensures exists k | 0 <= k < |s| :: s[k] == x && x !in s[..k] && RemoveFirst(s, x) == s[..k] + s[k + 1..]
  {
    var k := FirstIndex(s, x);
    assert s[k] == x && x !in s[..k] && RemoveFirst(s, x) == s[..k] + s[k + 1..];
  }

  /** The position of the first occurrence of x, where RemoveFirst cuts. */
  lemma {:induction false} FirstIndex<T>(s: seq<T>, x: T) returns (k: nat)
    requires x in s
    ensures k < |s| && s[k] == x && x !in s[..k] && RemoveFirst(s, x) == s[..k] + s[k + 1..]
  {
    if s[0] == x {
      k := 0;
      assert s[..0] == [] && RemoveFirst(s, x) == s[1..];
    } else {
      assert x in s[1..] by {
        var i :| 0 <= i < |s| && s[i] == x;
        assert s[1..][i - 1] == x;
      }
      var j := FirstIndex(s[1..], x);
      k := j + 1;
      FirstIndexStep(s, s[1..], x, j);
    }
  }

  /** The step of FirstIndex: a cut at j in the tail t is a cut at j + 1. */
  lemma {:induction false} FirstIndexStep<T>(s: seq<T>, t: seq<T>, x: T, j: nat)
    requires |s| > 0 && s[0] != x && t == s[1..] && j < |t|
    requires t[j] == x && x !in t[..j] && RemoveFirst(t, x) == t[..j] + t[j + 1..]
    ensures s[j + 1] == x && x !in s[..j + 1] && RemoveFirst(s, x) == s[..j + 1] + s[j + 2..]
  {
    var head := s[..j + 1];
    assert head == [s[0]] + t[..j];
    assert x !in head;
    assert s[j + 2..] == t[j + 1..];
    assert RemoveFirst(s, x) == [s[0]] + RemoveFirst(t, x);
  }

  /** In a list without repeats, removing x removes it completely and
      nothing else, and no repeat appears. */
  lemma RemoveFirstMembers<T>(s: seq<T>, x: T)
    requires NoDups(s)
    ensures NoDups(RemoveFirst(s, x))
    ensures forall y :: y in RemoveFirst(s, x) <==> y in s && y != x
  {
    var r := RemoveFirst(s, x);
    RemoveFirstCounts(s, x);
    MultisetNoDups(s);
    assert forall y :: y in r <==> multiset(r)[y] > 0;
    assert forall y :: y in s <==> multiset(s)[y] > 0;
    CountsNoDups(r);
  }

  /** Without repeats every element is counted once. */
  lemma {:induction false} MultisetNoDups<T>(s: seq<T>)
    requires NoDups(s)
    ensures forall y | y in s :: multiset(s)[y] == 1
  {
    if s != [] {
      MultisetNoDups(s[1..]);
      assert s == [s[0]] + s[1..];
      assert s[0] !in s[1..];
    }
  }

  /** Counting each element at most once means there are no repeats. */
  lemma {:induction false} CountsNoDups<T>(s: seq<T>)
    requires forall y :: multiset(s)[y] <= 1
    ensures NoDups(s)
  {
    if s != [] {
      assert s == [s[0]] + s[1..];
      assert multiset(s) == multiset{s[0]} + multiset(s[1..]);
      assert forall y :: multiset(s[1..])[y] <= multiset(s)[y];
      CountsNoDups(s[1..]);
      assert multiset(s[1..])[s[0]] == 0;
      assert s[0] !in s[1..];
      forall i, j | 0 <= i < j < |s| ensures s[i] != s[j] {
        if i > 0 {
          assert s[i] == s[1..][i - 1] && s[j] == s[1..][j - 1];
        } else {
          assert s[j] in s[1..];
        }
      }
    }
  }

  /** Both parts of a list without repeats are without repeats and have no
      element in common. */
  lemma NoDupsParts<T>(a: seq<T>, b: seq<T>)
    requires NoDups(a + b)
    ensures NoDups(a) && NoDups(b) && forall x | x in a :: x !in b
  {
    forall i, j | 0 <= i < j < |a| ensures a[i] != a[j] {
      assert (a + b)[i] == a[i] && (a + b)[j] == a[j];
    }
    forall i, j | 0 <= i < j < |b| ensures b[i] != b[j] {
      assert (a + b)[|a| + i] == b[i] && (a + b)[|a| + j] == b[j];
    }
    forall x | x in a ensures x !in b {
      var i :| 0 <= i < |a| && a[i] == x;
      forall j | 0 <= j < |b| ensures b[j] != x {
        assert (a + b)[i] == x && (a + b)[|a| + j] == b[j];
      }
    }
  }

  /** The selection toggle: a selected element is deselected (its first
      occurrence removed), any other is appended at the end. */
  function Toggle<T(==)>(s: seq<T>, x: T): (r: seq<T>)
    ensures x in s ==> r == RemoveFirst(s, x)
    ensures x !in s ==> r == s + [x]
  {
    if x in s then RemoveFirst(s, x) else s + [x]
  }

  /** In a list without repeats a toggle flips exactly x's membership and
      keeps the list free of repeats. */
  lemma ToggleFlips<T>(s: seq<T>, x: T)
    requires NoDups(s)
    ensures NoDups(Toggle(s, x))
    ensures x in Toggle(s, x) <==> x !in s
    ensures forall y | y != x :: y in Toggle(s, x) <==> y in s
  {
    if x in s {
      RemoveFirstMembers(s, x);
    }
  }

  /** Toggling twice restores membership; it restores the very list when the
      element was not there before. */
  lemma ToggleTwice<T>(s: seq<T>, x: T)
    requires NoDups(s)
    ensures forall y :: y in Toggle(Toggle(s, x), x) <==> y in s
    ensures x !in s ==> Toggle(Toggle(s, x), x) == s
  {
    ToggleFlips(s, x);
    ToggleFlips(Toggle(s, x), x);
    if x !in s {
      RemoveFirstAppended(s, x);
    }
  }

  /** Removing an element that was appended to a list without it gives the list back. */
  lemma {:induction false} RemoveFirstAppended<T>(s: seq<T>, x: T)
    requires x !in s
    ensures RemoveFirst(s + [x], x) == s
  {
    if s != [] {
      assert (s + [x])[1..] == s[1..] + [x];
      RemoveFirstAppended(s[1..], x);
    }
  }

  /** Toggling each element of hs in turn, from the first to the last. */
  function ToggleAll<T(==)>(s: seq<T>, hs: seq<T>): seq<T>
    decreases |hs|
  {
    if hs == [] then s else ToggleAll(Toggle(s, hs[0]), hs[1..])
  }

  /** Toggling a list of distinct elements into a list without repeats
      leaves exactly the elements that are in one of the two lists but not
      in both. */
  lemma {:induction false} ToggleAllMembers<T>(s: seq<T>, hs: seq<T>)
    requires NoDups(s) && NoDups(hs)
    ensures NoDups(ToggleAll(s, hs))
    ensures forall y :: y in ToggleAll(s, hs) <==> (y in s <==> y !in hs)
    decreases |hs|
  {
    if hs != [] {
      ToggleFlips(s, hs[0]);
      assert NoDups(hs[1..]) by {
        forall i, j | 0 <= i < j < |hs[1..]| ensures hs[1..][i] != hs[1..][j] {
          assert hs[1..][i] == hs[i + 1] && hs[1..][j] == hs[j + 1];
        }
      }
      ToggleAllMembers(Toggle(s, hs[0]), hs[1..]);
      assert hs == [hs[0]] + hs[1..];
      assert hs[0] !in hs[1..];
    }
  }

  /** Toggling distinct elements, all of them in u, into a list without
      repeats keeps it without repeats, and what it then holds was in the
      list or is in u. */
  lemma ToggleAllWithin<T>(s: seq<T>, hs: seq<T>, u: seq<T>)
    requires NoDups(s) && NoDups(hs) && forall y | y in hs :: y in u
    ensures NoDups(ToggleAll(s, hs))
    ensures forall y | y in ToggleAll(s, hs) :: y in s || y in u
    ensures forall y :: y in ToggleAll(s, hs) <==> (y in s <==> y !in hs)
  {
    ToggleAllMembers(s, hs);
    forall y | y in ToggleAll(s, hs) ensures y in s || y in u {
      ToggleAllHas(s, hs, y);
    }
  }

  /** ToggleAllMembers for one element. */
  lemma ToggleAllHas<T>(s: seq<T>, hs: seq<T>, y: T)
    requires NoDups(s) && NoDups(hs)
    ensures y in ToggleAll(s, hs) <==> (y in s <==> y !in hs)
  {
    ToggleAllMembers(s, hs);
  }

  /** Toggling one more element at the end of hs toggles it into what
      toggling hs gave. */
  lemma {:induction false} ToggleAllAppend<T>(s: seq<T>, hs: seq<T>, x: T)
    ensures ToggleAll(s, hs + [x]) == Toggle(ToggleAll(s, hs), x)
    decreases |hs|
  {
    if hs == [] {
      assert [] + [x] == [x];
      assert [x][1..] == [];
    } else {
      assert (hs + [x])[0] == hs[0] && (hs + [x])[1..] == hs[1..] + [x];
      ToggleAllAppend(Toggle(s, hs[0]), hs[1..], x);
    }
  }

  /** ArrayList.removeAll: every element that occurs in r goes, the others
      keep their order. */
  function RemoveAll<T(==)>(s: seq<T>, r: seq<T>): (res: seq<T>)
    ensures |res| <= |s|
    ensures forall y | y in res :: y in s && y !in r
    ensures forall y | y in s && y !in r :: y in res
  {
    if s == [] then []
    else if s[0] in r then RemoveAll(s[1..], r)
    else [s[0]] + RemoveAll(s[1..], r)
  }

  /** Removing never introduces repeats, and removing nothing that is there
      changes nothing. */
  lemma {:induction false} RemoveAllKeeps<T>(s: seq<T>, r: seq<T>)
    ensures NoDups(s) ==> NoDups(RemoveAll(s, r))
    ensures (forall y | y in s :: y !in r) ==> RemoveAll(s, r) == s
  {
    if s != [] {
      RemoveAllKeeps(s[1..], r);
      if NoDups(s) {
        assert NoDups(s[1..]) by {
          forall i, j | 0 <= i < j < |s[1..]| ensures s[1..][i] != s[1..][j] {
            assert s[1..][i] == s[i + 1] && s[1..][j] == s[j + 1];
          }
        }
        assert s[0] !in s[1..] by {
          forall j | 1 <= j < |s| ensures s[0] != s[j] { }
        }
      }
      if forall y | y in s :: y !in r {
        assert s == [s[0]] + s[1..];
      }
    }
  }

  /** Removing one more element, which occurs at most once, is removing it
      along with the others: removing the elements of a list one at a time
      is removing them all at once. */
  lemma {:induction false} RemoveAllStep<T>(s: seq<T>, a: seq<T>, x: T)
    requires NoDups(s)
    ensures RemoveFirst(RemoveAll(s, a), x) == RemoveAll(s, a + [x])
  {
    if s != [] {
      assert NoDups(s[1..]) by {
        forall i, j | 0 <= i < j < |s[1..]| ensures s[1..][i] != s[1..][j] {
          assert s[1..][i] == s[i + 1] && s[1..][j] == s[j + 1];
        }
      }
      RemoveAllStep(s[1..], a, x);
      if s[0] !in a && s[0] == x {
        assert x !in s[1..] by {
          forall j | 1 <= j < |s| ensures s[0] != s[j] { }
        }
        RemoveAllAbsent(s[1..], a, x);
      }
    }
  }

  /** Removing the next element of a list of removals one by one. */
  lemma RemoveAllNext<T>(s: seq<T>, a: seq<T>, i: nat)
    requires NoDups(s) && i < |a|
    ensures RemoveFirst(RemoveAll(s, a[..i]), a[i]) == RemoveAll(s, a[..i + 1])
  {
    RemoveAllStep(s, a[..i], a[i]);
    PrefixExtended(a, i);
  }

  /** Removing an element that is not there as well changes nothing. */
  lemma {:induction false} RemoveAllAbsent<T>(s: seq<T>, a: seq<T>, x: T)
    requires x !in s
    ensures RemoveAll(s, a + [x]) == RemoveAll(s, a)
  {
    if s != [] {
      RemoveAllAbsent(s[1..], a, x);
    }
  }

  /** A prefix extended by the next element is the next prefix. */
  lemma PrefixExtended<T>(s: seq<T>, i: nat)
    requires i < |s|
    ensures s[..i] + [s[i]] == s[..i + 1]
  {
  }

  /** Grouping sel (its members leave the list, the new group g goes on top)
      and then ungrouping g (g leaves, its children sel go on top) leaves the
      list without sel followed by sel: every element that was there or in
      sel is there again, and nothing else. */
  lemma GroupThenUngroup<T>(s: seq<T>, sel: seq<T>, g: T)
    requires g !in s && g !in sel
    ensures RemoveFirst(RemoveAll(s, sel) + [g], g) + sel == RemoveAll(s, sel) + sel
    ensures forall y :: y in RemoveAll(s, sel) + sel <==> y in s || y in sel
  {
    RemoveFirstAppended(RemoveAll(s, sel), g);
  }
}
