/** Colour stops: the record the editor keeps per stop, the stable sort by
    position done before every render, and the list changes made by the
    "add colour" and "delete stop" buttons. */
module Stops {
  import opened Hex

  datatype ColorStop = ColorStop(id: int, color: string, position: int, opacity: Opacity)

  /** The two stops the editor starts with. */
  function DefaultStops(): seq<ColorStop>
  {
    [ColorStop(1, "#3b82f6", 0, Percent(100)), ColorStop(2, "#8b5cf6", 100, Percent(100))]
  }

  // ---------------------------------------------------------------------
  // Sorting by position (Array.prototype.sort is stable)
  // ---------------------------------------------------------------------

  predicate Sorted(s: seq<ColorStop>)
  {
    forall i, j :: 0 <= i < j < |s| ==> s[i].position <= s[j].position
  }

  /** The stops at one position, in list order. */
  function AtPosition(s: seq<ColorStop>, p: int): (r: seq<ColorStop>)
    ensures |r| <= |s|
    ensures forall x :: x in r ==> x in s && x.position == p
  {
    if s == [] then []
    else (if s[0].position == p then [s[0]] else []) + AtPosition(s[1..], p)
  }

  /** Stable: the stops at every position keep their relative order. */
  ghost predicate SameOrderAtEachPosition(s: seq<ColorStop>, t: seq<ColorStop>)
  {
    forall p :: AtPosition(s, p) == AtPosition(t, p)
  }

  /** Places `x` in front of the first stop whose position is not smaller. */
  function Insert(x: ColorStop, s: seq<ColorStop>): seq<ColorStop>
  {
    if s == [] || x.position <= s[0].position then [x] + s
    else [s[0]] + Insert(x, s[1..])
  }

  /** `colorStops.sort((a, b) => a.position - b.position)`, as a stable
      insertion sort. */
  function SortByPosition(s: seq<ColorStop>): seq<ColorStop>
  {
    if s == [] then [] else Insert(s[0], SortByPosition(s[1..]))
  }

  lemma SortedCons(y: ColorStop, r: seq<ColorStop>)
    requires Sorted(r) && forall z :: z in r ==> y.position <= z.position
    ensures Sorted([y] + r)
  {
    var t := [y] + r;
    forall i, j | 0 <= i < j < |t| ensures t[i].position <= t[j].position {
      assert t[j] == r[j - 1] && t[j] in r;
      if i > 0 {
        assert t[i] == r[i - 1];
      }
    }
  }

  lemma {:induction false} InsertMembers(x: ColorStop, s: seq<ColorStop>)
    ensures forall z :: z in Insert(x, s) <==> z == x || z in s
    ensures multiset(Insert(x, s)) == multiset(s) + multiset{x}
    ensures |Insert(x, s)| == |s| + 1
  {
    if s == [] || x.position <= s[0].position {
    } else {
      InsertMembers(x, s[1..]);
      assert s == [s[0]] + s[1..];
    }
  }

  lemma {:induction false} InsertSorted(x: ColorStop, s: seq<ColorStop>)
    requires Sorted(s)
    ensures Sorted(Insert(x, s))
  {
    if s == [] || x.position <= s[0].position {
      SortedCons(x, s);
    } else {
      var t := s[1..];
      assert Sorted(t);
      InsertSorted(x, t);
      InsertMembers(x, t);
      forall z | z in Insert(x, t) ensures s[0].position <= z.position {
        if z != x {
          var k :| 0 <= k < |t| && t[k] == z;
          assert s[k + 1] == z;
        }
      }
      SortedCons(s[0], Insert(x, t));
    }
  }

  lemma {:induction false} InsertAtPosition(x: ColorStop, s: seq<ColorStop>, p: int)
    ensures AtPosition(Insert(x, s), p) == AtPosition([x] + s, p)
  {
    if s == [] || x.position <= s[0].position {
    } else {
      InsertAtPosition(x, s[1..], p);
      var y := s[0];
      assert ([y] + Insert(x, s[1..]))[1..] == Insert(x, s[1..]);
      assert ([x] + s)[1..] == s;
      assert ([x] + s[1..])[1..] == s[1..];
      assert s[1..] == s[1..];
    }
  }

  /** The sort orders by position and is a permutation. */
  lemma {:induction false} SortByPositionPermutes(s: seq<ColorStop>)
    ensures Sorted(SortByPosition(s))
    ensures multiset(SortByPosition(s)) == multiset(s)
    ensures |SortByPosition(s)| == |s|
  {
    if s != [] {
      SortByPositionPermutes(s[1..]);
      var t := SortByPosition(s[1..]);
      InsertSorted(s[0], t);
      InsertMembers(s[0], t);
      assert s == [s[0]] + s[1..];
    }
  }

  /** The sort is stable: stops at the same position keep their order. */
  lemma {:induction false} SortByPositionStable(s: seq<ColorStop>)
    ensures SameOrderAtEachPosition(SortByPosition(s), s)
  {
    if s != [] {
      SortByPositionStable(s[1..]);
      var t := SortByPosition(s[1..]);
      forall p ensures AtPosition(SortByPosition(s), p) == AtPosition(s, p) {
        InsertAtPosition(s[0], t, p);
        assert ([s[0]] + t)[1..] == t;
        assert s[1..] == ([s[0]] + s[1..])[1..];
      }
    }
  }

  /** The sort orders by position, is a permutation, and is stable. */
  lemma SortByPositionCorrect(s: seq<ColorStop>)
    ensures Sorted(SortByPosition(s))
    ensures multiset(SortByPosition(s)) == multiset(s)
    ensures |SortByPosition(s)| == |s|
    ensures SameOrderAtEachPosition(SortByPosition(s), s)
  {
    SortByPositionPermutes(s);
    SortByPositionStable(s);
  }

  lemma AtPositionHead(s: seq<ColorStop>)
    requires s != []
    ensures AtPosition(s, s[0].position) != []
  {
  }

  lemma {:induction false} AtPositionMember(s: seq<ColorStop>, x: ColorStop)
    requires x in s
    ensures x in AtPosition(s, x.position)
  {
    if s[0] != x {
      AtPositionMember(s[1..], x);
    }
  }

  lemma SameOrderEmpty(s: seq<ColorStop>, t: seq<ColorStop>)
    requires SameOrderAtEachPosition(s, t)
    ensures s == [] <==> t == []
  {
    if s != [] {
      AtPositionHead(s);
    }
    if t != [] {
      AtPositionHead(t);
    }
  }

  /** Two sorted lists with the same per-position order start with the same stop. */
  lemma SameOrderHeads(s: seq<ColorStop>, t: seq<ColorStop>)
    requires Sorted(s) && Sorted(t) && s != [] && t != []
    requires SameOrderAtEachPosition(s, t)
    ensures s[0] == t[0]
  {
    var v, w := s[0].position, t[0].position;
    AtPositionHead(s);
    AtPositionHead(t);
    var y := AtPosition(t, v)[0];
    assert y in t && y.position == v;
    var x := AtPosition(s, w)[0];
    assert x in s && x.position == w;
    assert v == w;
    assert AtPosition(s, v) == [s[0]] + AtPosition(s[1..], v);
    assert AtPosition(t, v) == [t[0]] + AtPosition(t[1..], v);
  }

  lemma SameOrderTails(s: seq<ColorStop>, t: seq<ColorStop>)
    requires s != [] && t != [] && s[0] == t[0]
    requires SameOrderAtEachPosition(s, t)
    ensures SameOrderAtEachPosition(s[1..], t[1..])
  {
    var v := s[0].position;
    forall p ensures AtPosition(s[1..], p) == AtPosition(t[1..], p) {
      assert AtPosition(s, p) == AtPosition(t, p);
      if p == v {
        assert AtPosition(s, p) == [s[0]] + AtPosition(s[1..], p);
        assert AtPosition(t, p) == [t[0]] + AtPosition(t[1..], p);
        assert AtPosition(s[1..], p) == AtPosition(s, p)[1..] == AtPosition(t, p)[1..] == AtPosition(t[1..], p);
      } else {
        assert AtPosition(s, p) == AtPosition(s[1..], p);
        assert AtPosition(t, p) == AtPosition(t[1..], p);
      }
    }
  }

  /** A sorted list is fixed by its stops at each position: no two different
      sorted lists keep the same per-position order. */
  lemma {:induction false} SortedUnique(s: seq<ColorStop>, t: seq<ColorStop>)
    requires Sorted(s) && Sorted(t)
    requires SameOrderAtEachPosition(s, t)
    ensures s == t
    decreases |s| + |t|
  {
    if s == [] || t == [] {
      SameOrderEmpty(s, t);
    } else {
      SameOrderHeads(s, t);
      SameOrderTails(s, t);
      SortedUnique(s[1..], t[1..]);
      assert s == [s[0]] + s[1..] && t == [t[0]] + t[1..];
    }
  }

  /** The sort is the one stable ordering by position: any sorted list that
      keeps the per-position order of `s` is its result. */
  lemma SortByPositionUnique(s: seq<ColorStop>, t: seq<ColorStop>)
    requires Sorted(t) && SameOrderAtEachPosition(t, s)
    ensures SortByPosition(s) == t
  {
    SortByPositionCorrect(s);
    SortedUnique(SortByPosition(s), t);
  }

  /** Sorting an already sorted list changes nothing, so sorting is idempotent. */
  lemma SortByPositionSorted(s: seq<ColorStop>)
    requires Sorted(s)
    ensures SortByPosition(s) == s
  {
    SortByPositionUnique(s, s);
  }

  predicate DistinctPositions(s: seq<ColorStop>)
  {
    forall i, j :: 0 <= i < j < |s| ==> s[i].position != s[j].position
  }

  lemma {:induction false} AtPositionNone(s: seq<ColorStop>, p: int)
    requires forall z :: z in s ==> z.position != p
    ensures AtPosition(s, p) == []
  {
    if s != [] {
      AtPositionNone(s[1..], p);
    }
  }

  lemma {:induction false} AtPositionDistinct(s: seq<ColorStop>, p: int)
    requires DistinctPositions(s)
    ensures |AtPosition(s, p)| <= 1
  {
    if s != [] {
      if s[0].position == p {
        forall z | z in s[1..] ensures z.position != p {
          var j :| 0 <= j < |s[1..]| && s[1..][j] == z;
          assert s[j + 1] == z;
        }
        AtPositionNone(s[1..], p);
      } else {
        AtPositionDistinct(s[1..], p);
      }
    }
  }

  lemma SameMultisetMember(s: seq<ColorStop>, t: seq<ColorStop>, x: ColorStop)
    requires multiset(s) == multiset(t) && x in s
    ensures x in t
  {
    assert x in multiset(s);
  }

  /** At most one stop sits at `p`, and `x` is one there, so it is the only one. */
  lemma OnlyStopAt(s: seq<ColorStop>, p: int, x: ColorStop)
    requires DistinctPositions(s) && x in s && x.position == p
    ensures AtPosition(s, p) == [x]
  {
    AtPositionDistinct(s, p);
    AtPositionMember(s, x);
  }

  /** With all positions distinct, the same stops give the same stop at each position. */
  lemma SameStopsAtPosition(s: seq<ColorStop>, t: seq<ColorStop>, p: int)
    requires multiset(s) == multiset(t)
    requires DistinctPositions(s) && DistinctPositions(t)
    ensures AtPosition(s, p) == AtPosition(t, p)
  {
    var a := AtPosition(s, p);
    if a != [] {
      var x := a[0];
      assert x in a;
      SameMultisetMember(s, t, x);
      OnlyStopAt(s, p, x);
      OnlyStopAt(t, p, x);
    } else {
      var b := AtPosition(t, p);
      if b != [] {
        var x := b[0];
        assert x in b;
        SameMultisetMember(t, s, x);
        AtPositionMember(s, x);
        assert false;
      }
    }
  }

  /** Two orderings of the same stops, all at different positions, sort to
      the same list. */
  lemma ReorderedSortsEqual(s: seq<ColorStop>, t: seq<ColorStop>)
    requires multiset(s) == multiset(t)
    requires DistinctPositions(s) && DistinctPositions(t)
    ensures SortByPosition(s) == SortByPosition(t)
  {
    SortByPositionCorrect(t);
    var u := SortByPosition(t);
    forall p ensures AtPosition(u, p) == AtPosition(s, p) {
      SameStopsAtPosition(s, t, p);
    }
    SortByPositionUnique(s, u);
  }

  // ---------------------------------------------------------------------
  // addColorStop
  // ---------------------------------------------------------------------

  function MaxId(s: seq<ColorStop>): (m: int)
    requires s != []
    ensures forall x :: x in s ==> x.id <= m
    ensures exists x :: x in s && x.id == m
  {
    if |s| == 1 then s[0].id
    else
      var rest := MaxId(s[1..]);
      assert s[0] in s;
      if s[0].id >= rest then s[0].id else rest
  }

  /** `Math.max(...ids) + 1`, or 1 for an empty list. */
  function NextId(s: seq<ColorStop>): (id: int)
    ensures forall x :: x in s ==> x.id < id
  {
    if |s| > 0 then MaxId(s) + 1 else 1
  }

  /** 50, or `Math.round` of the mean of the two stops around the middle index. */
  function NewPosition(s: seq<ColorStop>): int
  {
    if |s| >= 2 then
      var m := |s| / 2;
      // Math.round rounds halves up: round(x / 2) == floor((x + 1) / 2)
      (s[m - 1].position + s[m].position + 1) / 2
    else 50
  }

  /** The stop list after "add colour": a fresh stop at full opacity pushed at the end. */
  function AddStop(s: seq<ColorStop>, color: string): (r: seq<ColorStop>)
    ensures |r| == |s| + 1 && r[..|s|] == s
    ensures r[|s|].color == color && r[|s|].opacity == Percent(100)
  {
    s + [ColorStop(NextId(s), color, NewPosition(s), Percent(100))]
  }

  predicate UniqueIds(s: seq<ColorStop>)
  {
    forall i, j :: 0 <= i < j < |s| ==> s[i].id != s[j].id
  }

  /** The added stop's id exceeds every existing id, so ids stay unique. */
  lemma AddStopIds(s: seq<ColorStop>, color: string)
    requires UniqueIds(s)
    ensures forall x :: x in s ==> x.id < AddStop(s, color)[|s|].id
    ensures UniqueIds(AddStop(s, color))
  {
    var r := AddStop(s, color);
    forall i, j | 0 <= i < j < |r| ensures r[i].id != r[j].id {
      if j == |s| {
        assert r[i] in s;
      } else {
        assert r[i] == s[i] && r[j] == s[j];
      }
    }
  }

  /** On a sorted list of two or more stops, the new position lies between
      the two stops around the middle index; otherwise it is 50. */
  lemma NewPositionBetween(s: seq<ColorStop>)
    requires Sorted(s)
    ensures |s| >= 2 ==>
      s[|s| / 2 - 1].position <= NewPosition(s) <= s[|s| / 2].position
    ensures |s| < 2 ==> NewPosition(s) == 50
  {
  }

  // ---------------------------------------------------------------------
  // removeColorStop
  // ---------------------------------------------------------------------

  /** The stops whose id differs from `id`, in order. */
  function WithoutId(s: seq<ColorStop>, id: int): (r: seq<ColorStop>)
    ensures |r| <= |s|
  {
    if s == [] then []
    else (if s[0].id != id then [s[0]] else []) + WithoutId(s[1..], id)
  }

  /** `filter` keeps exactly the stops with a different id. */
  lemma {:induction false} WithoutIdMembers(s: seq<ColorStop>, id: int)
    ensures forall x :: x in WithoutId(s, id) <==> x in s && x.id != id
  {
    if s != [] {
      WithoutIdMembers(s[1..], id);
      assert s == [s[0]] + s[1..];
    }
  }

  /** The stop list after "delete stop": refused while two or fewer remain. */
  function RemoveStop(s: seq<ColorStop>, id: int): (r: seq<ColorStop>)
    ensures |s| <= 2 ==> r == s
    ensures |s| > 2 ==> forall x :: x in r <==> x in s && x.id != id
  {
    if |s| <= 2 then s else WithoutIdMembers(s, id); WithoutId(s, id)
  }

  /** Filtering keeps the survivors in their order, so a sorted list stays sorted. */
  lemma {:induction false} WithoutIdSorted(s: seq<ColorStop>, id: int)
    requires Sorted(s)
    ensures Sorted(WithoutId(s, id))
  {
    if s != [] {
      var t := s[1..];
      assert Sorted(t);
      WithoutIdSorted(t, id);
      if s[0].id != id {
        WithoutIdMembers(t, id);
        forall z | z in WithoutId(t, id) ensures s[0].position <= z.position {
          var k :| 0 <= k < |t| && t[k] == z;
          assert s[k + 1] == z;
        }
        SortedCons(s[0], WithoutId(t, id));
      }
    }
  }

  lemma {:induction false} WithoutIdAbsent(s: seq<ColorStop>, id: int)
    requires forall x :: x in s ==> x.id != id
    ensures WithoutId(s, id) == s
  {
    if s != [] {
      WithoutIdAbsent(s[1..], id);
      assert s == [s[0]] + s[1..];
    }
  }

  /** Removing by an id that only the stop at index `k` carries drops
      exactly that stop and keeps the rest in order. */
  lemma {:induction false} WithoutIdOnlyAt(s: seq<ColorStop>, k: nat, id: int)
    requires k < |s| && s[k].id == id
    requires forall j :: 0 <= j < |s| && j != k ==> s[j].id != id
    ensures WithoutId(s, id) == s[..k] + s[k + 1..]
  {
    var t := s[1..];
    assert WithoutId(s, id) == (if s[0].id != id then [s[0]] else []) + WithoutId(t, id);
    if k == 0 {
      forall x | x in t ensures x.id != id {
        var j :| 0 <= j < |t| && t[j] == x;
        assert s[j + 1] == x;
      }
      WithoutIdAbsent(t, id);
    } else {
      assert forall j :: 0 <= j < |t| && j != k - 1 ==> t[j] == s[j + 1];
      WithoutIdOnlyAt(t, k - 1, id);
      assert s[..k] == [s[0]] + t[..k - 1];
      assert s[k + 1..] == t[k..];
    }
  }

  /** With unique ids, removing the stop at index `k` by its id leaves every
      other stop in its order: the list loses exactly that one element. */
  lemma WithoutIdUnique(s: seq<ColorStop>, k: nat)
    requires UniqueIds(s) && k < |s|
    ensures WithoutId(s, s[k].id) == s[..k] + s[k + 1..]
  {
    WithoutIdOnlyAt(s, k, s[k].id);
  }

  /** Deleting an existing stop from a list of three or more with unique ids
      removes that stop only, and at least two stops remain. */
  lemma RemoveStopUnique(s: seq<ColorStop>, k: nat)
    requires UniqueIds(s) && 2 < |s| && k < |s|
    ensures RemoveStop(s, s[k].id) == s[..k] + s[k + 1..]
    ensures |RemoveStop(s, s[k].id)| == |s| - 1 >= 2
  {
    WithoutIdUnique(s, k);
  }

  // ---------------------------------------------------------------------
  // Unique ids survive the sort and the filter
  // ---------------------------------------------------------------------

  lemma UniqueIdsTail(s: seq<ColorStop>)
    requires UniqueIds(s) && s != []
    ensures UniqueIds(s[1..])
    ensures forall y :: y in s[1..] ==> y.id != s[0].id
  {
    var t := s[1..];
    forall i, j | 0 <= i < j < |t| ensures t[i].id != t[j].id {
      assert t[i] == s[i + 1] && t[j] == s[j + 1];
    }
    forall y | y in t ensures y.id != s[0].id {
      var k :| 0 <= k < |t| && t[k] == y;
      assert s[k + 1] == y;
    }
  }

  lemma UniqueIdsCons(x: ColorStop, t: seq<ColorStop>)
    requires UniqueIds(t) && forall y :: y in t ==> y.id != x.id
    ensures UniqueIds([x] + t)
  {
    var r := [x] + t;
    forall i, j | 0 <= i < j < |r| ensures r[i].id != r[j].id {
      assert r[j] == t[j - 1] && r[j] in t;
      if i > 0 {
        assert r[i] == t[i - 1];
      }
    }
  }

  /** Inserting a stop whose id is new keeps ids unique. */
  lemma {:induction false} InsertUniqueIds(x: ColorStop, s: seq<ColorStop>)
    requires UniqueIds(s) && forall y :: y in s ==> y.id != x.id
    ensures UniqueIds(Insert(x, s))
  {
    if s == [] || x.position <= s[0].position {
      UniqueIdsCons(x, s);
    } else {
      var t := s[1..];
      UniqueIdsTail(s);
      assert forall y :: y in t ==> y in s;
      InsertUniqueIds(x, t);
      InsertMembers(x, t);
      assert s[0] in s;
      UniqueIdsCons(s[0], Insert(x, t));
    }
  }

  /** Sorting keeps ids unique. */
  lemma {:induction false} SortKeepsUniqueIds(s: seq<ColorStop>)
    requires UniqueIds(s)
    ensures UniqueIds(SortByPosition(s))
  {
    if s != [] {
      var t := s[1..];
      UniqueIdsTail(s);
      SortKeepsUniqueIds(t);
      SortByPositionPermutes(t);
      forall y | y in SortByPosition(t) ensures y.id != s[0].id {
        assert y in multiset(SortByPosition(t));
      }
      InsertUniqueIds(s[0], SortByPosition(t));
    }
  }

  /** Deleting by id keeps ids unique. */
  lemma {:induction false} WithoutIdKeepsUniqueIds(s: seq<ColorStop>, id: int)
    requires UniqueIds(s)
    ensures UniqueIds(WithoutId(s, id))
  {
    if s != [] {
      var t := s[1..];
      UniqueIdsTail(s);
      WithoutIdKeepsUniqueIds(t, id);
      assert WithoutId(s, id) == (if s[0].id != id then [s[0]] else []) + WithoutId(t, id);
      if s[0].id != id {
        WithoutIdMembers(t, id);
        UniqueIdsCons(s[0], WithoutId(t, id));
      }
    }
  }

  // ---------------------------------------------------------------------
  // Editing one stop: `colorStops.find(s => s.id === id)`, then a field set
  // ---------------------------------------------------------------------

  predicate HasId(s: seq<ColorStop>, id: int)
  {
    exists k :: 0 <= k < |s| && s[k].id == id
  }

  /** The index of the stop `find` returns: the first one with that id. */
  function FirstWithId(s: seq<ColorStop>, id: int): (k: nat)
    requires HasId(s, id)
    ensures k < |s| && s[k].id == id
    ensures forall j :: 0 <= j < k ==> s[j].id != id
  {
    if s[0].id == id then 0
    else
      assert HasId(s[1..], id) by {
        var k :| 0 <= k < |s| && s[k].id == id;
        assert s[1..][k - 1] == s[k];
      }
      FirstWithId(s[1..], id) + 1
  }

  /** Giving a stop a new colour or opacity leaves every position as it was,
      so a sorted list stays sorted and the next sort changes nothing. */
  lemma SameOrderAfterRecolour(s: seq<ColorStop>, k: nat, x: ColorStop)
    requires Sorted(s) && k < |s| && x.position == s[k].position
    ensures Sorted(s[k := x])
    ensures SortByPosition(s[k := x]) == s[k := x]
  {
    var t := s[k := x];
    assert forall i :: 0 <= i < |t| ==> t[i].position == s[i].position;
    SortByPositionSorted(t);
  }
}
