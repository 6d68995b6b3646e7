/** The saved-gradient history: the list the "save" button adds to (newest
    first, at most ten entries after a save from ten or fewer), the list
    the trash button deletes from, and the entries "load" reads back. */
module History {
  import opened Stops
  import opened Serialize

  /** One saved entry; `createdAt` is the ISO time stamp taken at save time. */
  datatype SavedGradient = SavedGradient(kind: GradientKind, angle: int, colorStops: seq<ColorStop>, createdAt: string)

  /** The length above which a save drops the oldest entry. */
  const MaxSaved := 10

  /** The duplicate test: same stops (compared as JSON text), same type,
      same angle; the time stamp is not compared. */
  predicate SameGradient(a: SavedGradient, b: SavedGradient)
  {
    a.colorStops == b.colorStops && a.kind == b.kind && a.angle == b.angle
  }

  /** `savedGradients.some(...)`: some entry already holds this gradient. */
  predicate IsDuplicate(h: seq<SavedGradient>, e: SavedGradient)
  {
    exists i :: 0 <= i < |h| && SameGradient(h[i], e)
  }

  /** The history after saving `e`: unchanged for a duplicate, otherwise `e`
      goes in front and, when that makes more than ten, the last entry goes. */
  function Save(h: seq<SavedGradient>, e: SavedGradient): seq<SavedGradient>
  {
    if IsDuplicate(h, e) then h
    else
      var u := [e] + h;
      if |u| > MaxSaved then u[..|u| - 1] else u
  }

  /** A new gradient is put first, the others follow in order, and only the
      previous last entry can be lost; a duplicate changes nothing. */
  lemma SaveEffect(h: seq<SavedGradient>, e: SavedGradient)
    ensures IsDuplicate(h, e) ==> Save(h, e) == h
    ensures !IsDuplicate(h, e) ==>
      var r := Save(h, e);
      |r| == (if |h| >= MaxSaved then |h| else |h| + 1)
      && r[0] == e
      && r[1..] == (if |h| >= MaxSaved then h[..|h| - 1] else h)
  {
    if !IsDuplicate(h, e) {
      var u := [e] + h;
      if |h| >= MaxSaved {
        assert u[..|u| - 1][1..] == h[..|h| - 1];
      } else {
        assert u[1..] == h;
      }
    }
  }

  /** Saving from a history of at most ten entries leaves at most ten. */
  lemma SaveBounded(h: seq<SavedGradient>, e: SavedGradient)
    requires |h| <= MaxSaved
    ensures |Save(h, e)| <= MaxSaved
  {
    SaveEffect(h, e);
  }

  /** After a save, the history holds the saved gradient. */
  lemma SaveHolds(h: seq<SavedGradient>, e: SavedGradient)
    ensures IsDuplicate(Save(h, e), e)
  {
    if !IsDuplicate(h, e) {
      SaveEffect(h, e);
      assert SameGradient(Save(h, e)[0], e);
    }
  }

  /** Saving the same gradient again, at any later time, changes nothing. */
  lemma SaveTwice(h: seq<SavedGradient>, e: SavedGradient, later: string)
    ensures Save(Save(h, e), e.(createdAt := later)) == Save(h, e)
  {
    SaveHolds(h, e);
    var r := Save(h, e);
    var i :| 0 <= i < |r| && SameGradient(r[i], e);
    assert SameGradient(r[i], e.(createdAt := later));
  }

  /** No two entries hold the same gradient. */
  predicate NoDuplicates(h: seq<SavedGradient>)
  {
    forall i, j :: 0 <= i < j < |h| ==> !SameGradient(h[i], h[j])
  }

  /** Saving keeps the history free of duplicates. */
  lemma SaveNoDuplicates(h: seq<SavedGradient>, e: SavedGradient)
    requires NoDuplicates(h)
    ensures NoDuplicates(Save(h, e))
  {
    if !IsDuplicate(h, e) {
      var u := [e] + h;
      assert NoDuplicates(u) by {
        forall i, j | 0 <= i < j < |u| ensures !SameGradient(u[i], u[j]) {
          assert u[j] == h[j - 1];
          if i > 0 {
            assert u[i] == h[i - 1];
          } else {
            assert !SameGradient(h[j - 1], e);
          }
        }
      }
      if |u| > MaxSaved {
        var r := u[..|u| - 1];
        assert forall k :: 0 <= k < |r| ==> r[k] == u[k];
      }
    }
  }

  /** With entries held as values, recolouring a stop after a save gives a
      different gradient: the next save is no duplicate, it goes first, and
      (with room for both) the earlier entry keeps the colour it had. */
  lemma SaveRecolourSave(h: seq<SavedGradient>, e: SavedGradient, k: nat, c: string, later: string)
    requires k < |e.colorStops| && c != e.colorStops[k].color
    requires !IsDuplicate(h, e.(colorStops := e.colorStops[k := e.colorStops[k].(color := c)]))
    ensures var e2 := e.(colorStops := e.colorStops[k := e.colorStops[k].(color := c)], createdAt := later);
      !IsDuplicate(Save(h, e), e2) && Save(Save(h, e), e2)[0] == e2
      && (|h| + 2 <= MaxSaved && !IsDuplicate(h, e) ==> Save(Save(h, e), e2) == [e2, e] + h)
  {
    var e2 := e.(colorStops := e.colorStops[k := e.colorStops[k].(color := c)], createdAt := later);
    var r := Save(h, e);
    assert !SameGradient(e, e2) by {
      assert e2.colorStops[k].color != e.colorStops[k].color;
    }
    assert !IsDuplicate(h, e2) by {
      forall i | 0 <= i < |h| ensures !SameGradient(h[i], e2) {
        assert !SameGradient(h[i], e.(colorStops := e2.colorStops));
      }
    }
    SaveEffect(h, e);
    forall i | 0 <= i < |r| ensures !SameGradient(r[i], e2) {
      if !IsDuplicate(h, e) && i > 0 {
        assert r[i] == r[1..][i - 1];
      }
    }
    SaveEffect(r, e2);
  }

  // ---------------------------------------------------------------------
  // The delete handler: savedGradients.splice(index, 1)
  // ---------------------------------------------------------------------

  /** `splice(index, 1)`: a negative index counts from the end (and stops at
      the front), an index at or past the end removes nothing. */
  function Splice1(h: seq<SavedGradient>, index: int): seq<SavedGradient>
  {
    var start := if index < 0 then (if |h| + index < 0 then 0 else |h| + index)
                 else (if index > |h| then |h| else index);
    if start < |h| then h[..start] + h[start + 1..] else h
  }

  /** An index into the list deletes exactly that entry and keeps the rest in
      order; an index past the end changes nothing; a negative index counts
      back from the end. */
  lemma Splice1Effect(h: seq<SavedGradient>, index: int)
    ensures 0 <= index < |h| ==> Splice1(h, index) == h[..index] + h[index + 1..]
    ensures 0 <= index < |h| ==> |Splice1(h, index)| == |h| - 1
    ensures index >= |h| ==> Splice1(h, index) == h
    ensures -|h| <= index < 0 ==> Splice1(h, index) == Splice1(h, |h| + index)
    ensures index < -|h| && h != [] ==> Splice1(h, index) == h[1..]
  {
  }

  /** Deleting keeps the history free of duplicates. */
  lemma Splice1NoDuplicates(h: seq<SavedGradient>, index: int)
    requires NoDuplicates(h)
    ensures NoDuplicates(Splice1(h, index))
  {
    var r := Splice1(h, index);
    var start := if index < 0 then (if |h| + index < 0 then 0 else |h| + index)
                 else (if index > |h| then |h| else index);
    if start < |h| {
      forall i, j | 0 <= i < j < |r| ensures !SameGradient(r[i], r[j]) {
        var i', j' := if i < start then i else i + 1, if j < start then j else j + 1;
        assert r[i] == h[i'] && r[j] == h[j'];
      }
    }
  }

  // ---------------------------------------------------------------------
  // Thumbnails and loading
  // ---------------------------------------------------------------------

  /** The gradient string of a history thumbnail: the entry's stops as
      stored, without sorting. */
  function Thumbnail(e: SavedGradient): string
  {
    GradientString(e.kind, e.angle, e.colorStops)
  }

  /** An entry saved from sorted stops shows the same thumbnail as the
      preview does once it is loaded back. */
  lemma ThumbnailMatchesLoaded(e: SavedGradient)
    requires Sorted(e.colorStops)
    ensures Thumbnail(e) == PreviewGradient(e.kind, e.angle, e.colorStops)
  {
    PreviewGradientSorted(e.kind, e.angle, e.colorStops);
  }

  /** Saving the current gradient and then loading it back from the history
      restores the same type, angle and (sorted) stops, whether the save
      added an entry or found an equal one already there. */
  lemma SaveThenLoad(h: seq<SavedGradient>, e: SavedGradient)
    requires Sorted(e.colorStops)
    ensures exists i ::
              0 <= i < |Save(h, e)|
              && Save(h, e)[i].kind == e.kind && Save(h, e)[i].angle == e.angle
              && SortByPosition(Save(h, e)[i].colorStops) == e.colorStops
  {
    SaveHolds(h, e);
    var r := Save(h, e);
    var i :| 0 <= i < |r| && SameGradient(r[i], e);
    SortByPositionSorted(e.colorStops);
  }
}
