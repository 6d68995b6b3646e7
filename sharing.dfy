/** The page's stop records are objects that the edit handlers change in
    place. `saveCurrentGradient` copies the array of stops but not the stops,
    so a saved entry and the editor share stop objects until the editor's
    list is replaced by a load or a preset click. The rest of the model keeps
    saved entries as values; this module shows what the sharing does. */
module SharedStops {
  import opened Hex
  import opened Stops
  import opened Serialize
  import opened History

  /** One stop as the page holds it: a record the handlers assign to. */
  class StopObject {
    var id: int
    var color: string
    var position: int
    var opacity: Opacity

    constructor(s: ColorStop)
      ensures Value() == s
    {
      id := s.id;
      color := s.color;
      position := s.position;
      opacity := s.opacity;
    }

    /** The stop this object holds right now. */
    function Value(): ColorStop
      reads this
    {
      ColorStop(id, color, position, opacity)
    }
  }

  /** The stops a list of stop objects holds right now, in list order. */
  function Values(refs: seq<StopObject>): (r: seq<ColorStop>)
    reads set i | 0 <= i < |refs| :: refs[i]
    ensures |r| == |refs|
    ensures forall i :: 0 <= i < |refs| ==> r[i] == refs[i].Value()
  {
    if refs == [] then [] else [refs[0].Value()] + Values(refs[1..])
  }

  /** Save the default gradient, change the first stop's colour with its
      colour picker, and save again, with the objects shared as the page
      shares them: the second save is reported as a duplicate, and the saved
      entry now holds the new colour. */
  method SaveRecolourSaveAsWritten() returns (duplicate: bool, savedNow: seq<ColorStop>)
    ensures duplicate
    ensures savedNow == DefaultStops()[0 := DefaultStops()[0].(color := "#ff0000")]
    ensures savedNow != DefaultStops()
  {
    var d := DefaultStops();
    var first := new StopObject(d[0]);
    var second := new StopObject(d[1]);
    var editorStops := [first, second];
    // the first save: `[...state.colorStops]` copies the array, not the stops
    var savedStops := editorStops;
    // the colour picker: `find` the stop and assign its colour
    editorStops[0].color := "#ff0000";
    // the second save reads the saved entry through the same objects
    var entry := SavedGradient(Linear, 90, Values(savedStops), "2024-01-01T00:00:00.000Z");
    var again := SavedGradient(Linear, 90, Values(editorStops), "2024-01-01T00:01:00.000Z");
    assert SameGradient([entry][0], again);
    duplicate := IsDuplicate([entry], again);
    savedNow := Values(savedStops);
    assert savedNow[0].color != d[0].color;
  }
}
