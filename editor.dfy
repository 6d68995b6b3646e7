/** The editor's state object and the handlers that change it. Every
    handler that changes the gradient ends with `updateGradient`, which sorts
    the stops in place and rewrites the preview and the export text. */
module Editor {
  import opened Hex
  import opened Stops
  import opened Serialize
  import opened Templates
  import opened History

  class GradientEditor {
    var kind: GradientKind
    var angle: int
    var colorStops: seq<ColorStop>
    var currentFormat: string
    var savedGradients: seq<SavedGradient>

    /** What `updateGradient` leaves behind: the stops in position order. */
    predicate Valid()
      reads this
    {
      Sorted(colorStops)
    }

    /** The gradient string `updateGradient` gives the preview's background. */
    function Preview(): string
      reads this
    {
      GradientString(kind, angle, colorStops)
    }

    /** The export text `updateGradient` writes to the output box. */
    function Output(): string
      reads this
    {
      ExportText(currentFormat, Preview())
    }

    /** The initial state, with the history read from storage; the first
        `updateGradient` finds the stops already in order. */
    constructor(saved: seq<SavedGradient>)
      ensures Valid()
      ensures kind == Linear && angle == 90 && colorStops == DefaultStops()
      ensures currentFormat == "css" && savedGradients == saved
    {
      kind := Linear;
      angle := 90;
      colorStops := DefaultStops();
      currentFormat := "css";
      savedGradients := saved;
    }

    /** `updateGradient`: sort the stops by position (stably); the preview
        then shows them in that order. */
    method UpdateGradient()
      modifies this
      ensures colorStops == SortByPosition(old(colorStops))
      ensures kind == old(kind) && angle == old(angle)
      ensures currentFormat == old(currentFormat) && savedGradients == old(savedGradients)
      ensures Preview() == PreviewGradient(kind, angle, old(colorStops))
      ensures Valid()
    {
      colorStops := SortByPosition(colorStops);
      SortByPositionCorrect(old(colorStops));
    }

    /** The angle slider and the direction buttons. */
    method SetAngle(a: int)
      modifies this
      requires Valid()
      ensures angle == a && kind == old(kind) && colorStops == old(colorStops)
      ensures currentFormat == old(currentFormat) && savedGradients == old(savedGradients)
      ensures Valid()
    {
      angle := a;
      UpdateGradient();
      SortByPositionSorted(old(colorStops));
    }

    /** The export-format buttons: any tag is stored; unknown ones render as CSS. */
    method SetFormat(format: string)
      modifies this
      requires Valid()
      ensures currentFormat == format && Output() == ExportText(format, old(Preview()))
      ensures kind == old(kind) && angle == old(angle) && colorStops == old(colorStops)
      ensures savedGradients == old(savedGradients)
      ensures Valid()
    {
      currentFormat := format;
      UpdateGradient();
      SortByPositionSorted(old(colorStops));
    }

    /** `setGradientType`. */
    method SetGradientType(k: GradientKind)
      modifies this
      requires Valid()
      ensures kind == k && angle == old(angle) && colorStops == old(colorStops)
      ensures currentFormat == old(currentFormat) && savedGradients == old(savedGradients)
      ensures Valid()
    {
      kind := k;
      UpdateGradient();
      SortByPositionSorted(old(colorStops));
    }

    /** `addColorStop`, with the six random draws of `getRandomColor` given
        as `draws`: push a new stop, then re-render (which sorts it in). */
    method AddColorStop(draws: seq<nat>) returns (color: string)
      requires |draws| == 6 && forall i :: 0 <= i < 6 ==> draws[i] < 16
      modifies this
      ensures IsValidHex(color)
      ensures colorStops == SortByPosition(AddStop(old(colorStops), color))
      ensures old(UniqueIds(colorStops)) ==> UniqueIds(colorStops)
      ensures kind == old(kind) && angle == old(angle)
      ensures currentFormat == old(currentFormat) && savedGradients == old(savedGradients)
      ensures Valid()
    {
      color := RandomColor(draws);
      if UniqueIds(colorStops) {
        AddStopIds(colorStops, color);
        SortKeepsUniqueIds(AddStop(colorStops, color));
      }
      colorStops := AddStop(colorStops, color);
      UpdateGradient();
    }

    /** `removeColorStop`: refused, with nothing changed, while two or fewer
        stops remain; otherwise filter by id and re-render. With unique ids
        the stop carrying `id` is the only one that goes. */
    method RemoveColorStop(id: int) returns (refused: bool)
      modifies this
      ensures refused <==> |old(colorStops)| <= 2
      ensures refused ==> unchanged(this)
      ensures !refused ==> colorStops == SortByPosition(RemoveStop(old(colorStops), id)) && Valid()
      ensures !refused && old(Valid()) ==> colorStops == WithoutId(old(colorStops), id)
      ensures old(UniqueIds(colorStops)) ==> UniqueIds(colorStops)
      ensures !refused && old(Valid() && UniqueIds(colorStops)) && HasId(old(colorStops), id) ==>
        var k := FirstWithId(old(colorStops), id);
        colorStops == old(colorStops)[..k] + old(colorStops)[k + 1..] && |colorStops| >= 2
      ensures kind == old(kind) && angle == old(angle)
      ensures currentFormat == old(currentFormat) && savedGradients == old(savedGradients)
    {
      if |colorStops| <= 2 {
        return true;
      }
      refused := false;
      if Valid() {
        WithoutIdSorted(colorStops, id);
        SortByPositionSorted(WithoutId(colorStops, id));
      }
      if UniqueIds(colorStops) {
        WithoutIdKeepsUniqueIds(colorStops, id);
        SortKeepsUniqueIds(WithoutId(colorStops, id));
        if HasId(colorStops, id) {
          RemoveStopUnique(colorStops, FirstWithId(colorStops, id));
        }
      }
      colorStops := WithoutId(colorStops, id);
      UpdateGradient();
    }

    /** The colour picker of stop `id`: its value becomes the stop's colour. */
    method SetStopColor(id: int, value: string)
      requires Valid() && HasId(colorStops, id)
      modifies this
      ensures var k := FirstWithId(old(colorStops), id);
        colorStops == old(colorStops)[k := old(colorStops)[k].(color := value)]
      ensures kind == old(kind) && angle == old(angle)
      ensures currentFormat == old(currentFormat) && savedGradients == old(savedGradients)
      ensures Valid()
    {
      var k := FirstWithId(colorStops, id);
      var x := colorStops[k].(color := value);
      SameOrderAfterRecolour(colorStops, k, x);
      colorStops := colorStops[k := x];
      UpdateGradient();
    }

    /** The hex text box of stop `id`: text the colour test rejects is
        ignored; accepted text is expanded to six digits and stored. */
    method TypeStopHex(id: int, text: string) returns (accepted: bool)
      requires Valid() && (IsValidHex(text) ==> HasId(colorStops, id))
      modifies this
      ensures accepted == IsValidHex(text)
      ensures !accepted ==> unchanged(this)
      ensures accepted ==> var k := FirstWithId(old(colorStops), id);
        colorStops == old(colorStops)[k := old(colorStops)[k].(color := NormalizeHex(text))]
        && |colorStops[k].color| == 7 && IsValidHex(colorStops[k].color)
      ensures kind == old(kind) && angle == old(angle)
      ensures currentFormat == old(currentFormat) && savedGradients == old(savedGradients)
      ensures Valid()
    {
      accepted := IsValidHex(text);
      if accepted {
        NormalizeHexValid(text);
        SetStopColor(id, NormalizeHex(text));
      }
    }

    /** The opacity box of stop `id`. */
    method SetStopOpacity(id: int, o: Opacity)
      requires Valid() && HasId(colorStops, id)
      modifies this
      ensures var k := FirstWithId(old(colorStops), id);
        colorStops == old(colorStops)[k := old(colorStops)[k].(opacity := o)]
      ensures kind == old(kind) && angle == old(angle)
      ensures currentFormat == old(currentFormat) && savedGradients == old(savedGradients)
      ensures Valid()
    {
      var k := FirstWithId(colorStops, id);
      var x := colorStops[k].(opacity := o);
      SameOrderAfterRecolour(colorStops, k, x);
      colorStops := colorStops[k := x];
      UpdateGradient();
    }

    /** The position slider of stop `id`: the stop moves, then the list is
        sorted again. */
    method SetStopPosition(id: int, p: int)
      requires HasId(colorStops, id)
      modifies this
      ensures var k := FirstWithId(old(colorStops), id);
        colorStops == SortByPosition(old(colorStops)[k := old(colorStops)[k].(position := p)])
      ensures kind == old(kind) && angle == old(angle)
      ensures currentFormat == old(currentFormat) && savedGradients == old(savedGradients)
      ensures Valid()
    {
      var k := FirstWithId(colorStops, id);
      colorStops := colorStops[k := colorStops[k].(position := p)];
      UpdateGradient();
    }

    /** `saveCurrentGradient`, with the time stamp given as `createdAt`. */
    method SaveCurrentGradient(createdAt: string) returns (duplicate: bool)
      modifies this
      ensures var e := SavedGradient(kind, angle, colorStops, createdAt);
        duplicate == IsDuplicate(old(savedGradients), e)
        && savedGradients == Save(old(savedGradients), e)
      ensures kind == old(kind) && angle == old(angle) && colorStops == old(colorStops)
      ensures currentFormat == old(currentFormat)
    {
      var e := SavedGradient(kind, angle, colorStops, createdAt);
      duplicate := IsDuplicate(savedGradients, e);
      if !duplicate {
        var u := [e] + savedGradients;
        if |u| > MaxSaved {
          u := u[..|u| - 1];
        }
        savedGradients := u;
      }
    }

    /** The trash button's handler on the history list: `splice(index, 1)`. */
    method DeleteSaved(index: int)
      modifies this
      ensures savedGradients == Splice1(old(savedGradients), index)
      ensures kind == old(kind) && angle == old(angle) && colorStops == old(colorStops)
      ensures currentFormat == old(currentFormat)
    {
      savedGradients := Splice1(savedGradients, index);
    }

    /** `loadSavedGradient`: copy the entry's type, angle and stops into the
        state, then re-render. */
    method LoadSavedGradient(index: int)
      requires 0 <= index < |savedGradients|
      modifies this
      ensures var e := old(savedGradients)[index];
        kind == e.kind && angle == e.angle && colorStops == SortByPosition(e.colorStops)
      ensures currentFormat == old(currentFormat) && savedGradients == old(savedGradients)
      ensures Valid()
    {
      var e := savedGradients[index];
      kind := e.kind;
      angle := e.angle;
      colorStops := e.colorStops;
      UpdateGradient();
    }

    /** A click on an entry's trash button as the page wires it: the click
        bubbles to the entry's own listener first, which loads the entry,
        and only then to the list's listener, which deletes it. */
    method ClickTrashAsWritten(index: int)
      requires 0 <= index < |savedGradients|
      modifies this
      ensures var e := old(savedGradients)[index];
        kind == e.kind && angle == e.angle && colorStops == SortByPosition(e.colorStops)
      ensures savedGradients == Splice1(old(savedGradients), index)
      ensures currentFormat == old(currentFormat)
      ensures Valid()
    {
      LoadSavedGradient(index);
      DeleteSaved(index);
    }
  }

  /** Deleting a saved radial gradient while editing the default linear one
      switches the editor to radial: the trash click also loads the entry. */
  method TrashClickLoadsEntry() returns (before: GradientKind, after: GradientKind)
    ensures before == Linear && after == Radial
  {
    var entry := SavedGradient(Radial, 45, DefaultStops(), "2024-01-01T00:00:00.000Z");
    var editor := new GradientEditor([entry]);
    before := editor.kind;
    editor.ClickTrashAsWritten(0);
    after := editor.kind;
  }
}
