/** The text the editor derives from its state: the CSS gradient function
    shown in the preview, and the code snippet shown for the chosen export
    format. */
module Serialize {
  import opened Numerals
  import opened Hex
  import opened Stops
  import opened Templates

  /** The gradient type; every type other than `linear` renders as radial. */
  datatype GradientKind = Linear | Radial

  /** One stop in the gradient: `<rgba> <position>%`. */
  function StopText(s: ColorStop): string
  {
    HexToRgba(s.color, s.opacity) + " " + IntToString(s.position) + "%"
  }

  /** `stops.map(StopText).join(', ')`. */
  function StopListText(stops: seq<ColorStop>): string
    decreases |stops|
  {
    if stops == [] then ""
    else if |stops| == 1 then StopText(stops[0])
    else StopText(stops[0]) + ", " + StopListText(stops[1..])
  }

  /** The function name with its opening parenthesis. */
  function FunctionName(kind: GradientKind): string
  {
    match kind
    case Linear => "linear-gradient("
    case Radial => "radial-gradient("
  }

  /** Both names are sixteen characters long and end in `t(`, and that
      parenthesis is their only one. */
  lemma FunctionNameShape(kind: GradientKind)
    ensures var r := FunctionName(kind);
      |r| == 16 && r[14] == 't' && r[15] == '('
      && forall k :: 0 <= k < 15 ==> r[k] != '('
  {
  }

  /** What follows the opening parenthesis: the angle for a linear gradient,
      the `circle` shape for a radial one, then the stops. */
  function Arguments(kind: GradientKind, angle: int, stops: seq<ColorStop>): string
  {
    match kind
    case Linear => IntToString(angle) + "deg, " + StopListText(stops) + ")"
    case Radial => "circle, " + StopListText(stops) + ")"
  }

  /** The gradient string of `updateGradient`, for stops already in order. */
  function GradientString(kind: GradientKind, angle: int, stops: seq<ColorStop>): string
  {
    FunctionName(kind) + Arguments(kind, angle, stops)
  }

  /** The gradient string the editor shows: stops sorted by position first. */
  function PreviewGradient(kind: GradientKind, angle: int, stops: seq<ColorStop>): string
  {
    GradientString(kind, angle, SortByPosition(stops))
  }

  /** Two orderings of the same stops, all at different positions, produce
      the same gradient string. */
  lemma PreviewGradientReordered(kind: GradientKind, angle: int, s: seq<ColorStop>, t: seq<ColorStop>)
    requires multiset(s) == multiset(t)
    requires DistinctPositions(s) && DistinctPositions(t)
    ensures PreviewGradient(kind, angle, s) == PreviewGradient(kind, angle, t)
  {
    ReorderedSortsEqual(s, t);
  }

  /** Serialising stops that are already sorted is the same as serialising
      them as they stand. */
  lemma PreviewGradientSorted(kind: GradientKind, angle: int, s: seq<ColorStop>)
    requires Sorted(s)
    ensures PreviewGradient(kind, angle, s) == GradientString(kind, angle, s)
  {
    SortByPositionSorted(s);
  }

  /** The channels of the two default colours. */
  lemma DefaultChannels()
    ensures Channels("#3b82f6") == Rgb(Num(59), Num(130), Num(246))
    ensures Channels("#8b5cf6") == Rgb(Num(139), Num(92), Num(246))
  {
    ParseHexPairDigits('3', 'b');
    ParseHexPairDigits('8', '2');
    ParseHexPairDigits('f', '6');
    ParseHexPairDigits('8', 'b');
    ParseHexPairDigits('5', 'c');
  }

  lemma SmallNumbers()
    ensures IntToString(0) == "0" && IntToString(1) == "1"
    ensures IntToString(59) == "59" && IntToString(90) == "90" && IntToString(92) == "92"
  {
  }

  lemma LargeNumbers()
    ensures IntToString(100) == "100" && IntToString(130) == "130"
    ensures IntToString(139) == "139" && IntToString(246) == "246"
  {
  }

  lemma FirstStopLiteral()
    ensures "rgba(" + ("59" + ", " + "130" + ", " + "246" + ", " + "1" + ")") + " " + "0" + "%"
      == "rgba(59, 130, 246, 1) 0%"
  {
  }

  lemma SecondStopLiteral()
    ensures "rgba(" + ("139" + ", " + "92" + ", " + "246" + ", " + "1" + ")") + " " + "100" + "%"
      == "rgba(139, 92, 246, 1) 100%"
  {
  }

  lemma FirstDefaultStopText()
    ensures StopText(DefaultStops()[0]) == "rgba(59, 130, 246, 1) 0%"
  {
    DefaultChannels();
    SmallNumbers();
    LargeNumbers();
    OpacityTextWhole(1);
    FirstStopLiteral();
  }

  lemma SecondDefaultStopText()
    ensures StopText(DefaultStops()[1]) == "rgba(139, 92, 246, 1) 100%"
  {
    DefaultChannels();
    SmallNumbers();
    LargeNumbers();
    OpacityTextWhole(1);
    SecondStopLiteral();
  }

  /** The two stops the editor starts with, at 90 degrees. */
  lemma DefaultGradientString()
    ensures GradientString(Linear, 90, DefaultStops())
      == "linear-gradient(90deg, " + "rgba(59, 130, 246, 1) 0%" + ", "
         + "rgba(139, 92, 246, 1) 100%" + ")"
  {
    var s := DefaultStops();
    var t1, t2 := StopText(s[0]), StopText(s[1]);
    assert StopListText(s) == t1 + ", " + t2 by {
      assert StopListText(s[1..]) == t2;
    }
    assert IntToString(90) == "90";
    assert GradientString(Linear, 90, s) == "linear-gradient(" + ("90" + "deg, " + (t1 + ", " + t2) + ")");
    LinearHeaderRegroup(t1, t2);
    FirstDefaultStopText();
    SecondDefaultStopText();
  }

  lemma LinearHeaderRegroup(t1: string, t2: string)
    ensures "linear-gradient(" + ("90" + "deg, " + (t1 + ", " + t2) + ")")
      == "linear-gradient(90deg, " + t1 + ", " + t2 + ")"
  {
    assert "linear-gradient(" + "90" + "deg, " == "linear-gradient(90deg, ";
  }

  /** Every opening parenthesis has a character before it, and that character is `a`. */
  predicate ParenAfterA(s: string)
  {
    forall k :: 0 <= k < |s| && s[k] == '(' ==> k > 0 && s[k - 1] == 'a'
  }

  lemma ParenAfterAConcat(a: string, b: string)
    requires ParenAfterA(a) && ParenAfterA(b)
    ensures ParenAfterA(a + b)
  {
    var c := a + b;
    forall k | 0 <= k < |c| && c[k] == '(' ensures k > 0 && c[k - 1] == 'a' {
      if k >= |a| {
        assert c[k] == b[k - |a|];
        if k - |a| > 0 {
          assert c[k - 1] == b[k - |a| - 1];
        }
      }
    }
  }

  lemma NoParenNumber(n: int)
    ensures NoOpenParen(IntToString(n))
  {
    IntToStringAlphabet(n);
  }

  lemma NoParenOpacity(o: Opacity)
    ensures NoOpenParen(OpacityText(o))
  {
    if o.Percent? {
      var p := o.hundredths;
      var m := if p < 0 then -p else p;
      IntToStringAlphabet(m / 100);
      assert IntToString(m / 100) == NatToString(m / 100);
    }
  }

  lemma NoParenChannel(c: Channel)
    ensures NoOpenParen(ChannelText(c))
  {
    if c.Num? {
      NoParenNumber(c.value);
    }
  }

  /** A text without `(` may follow one whose parentheses all come after `a`. */
  lemma ParenAfterAExtend(a: string, b: string)
    requires ParenAfterA(a) && NoOpenParen(b)
    ensures ParenAfterA(a + b)
  {
    var c := a + b;
    assert forall j :: |a| <= j < |c| ==> c[j] == b[j - |a|];
    forall k | 0 <= k < |c| && c[k] == '(' ensures k > 0 && c[k - 1] == 'a' {
      if k < |a| {
        assert c[k] == a[k];
        if k > 0 {
          assert c[k - 1] == a[k - 1];
        }
      }
    }
  }

  lemma RgbaArgumentsNoParen(c: Rgb, o: Opacity)
    ensures NoOpenParen(RgbaArguments(c, o))
  {
    NoParenChannel(c.r);
    NoParenChannel(c.g);
    NoParenChannel(c.b);
    NoParenOpacity(o);
  }

  lemma StopTextParens(s: ColorStop)
    ensures ParenAfterA(StopText(s))
  {
    var args := RgbaArguments(Channels(s.color), s.opacity);
    RgbaArgumentsNoParen(Channels(s.color), s.opacity);
    assert ParenAfterA("rgba(");
    ParenAfterAExtend("rgba(", args);
    NoParenNumber(s.position);
    ParenAfterAExtend("rgba(" + args, " ");
    ParenAfterAExtend("rgba(" + args + " ", IntToString(s.position));
    ParenAfterAExtend("rgba(" + args + " " + IntToString(s.position), "%");
  }

  lemma {:induction false} StopListParens(stops: seq<ColorStop>)
    ensures ParenAfterA(StopListText(stops))
    decreases |stops|
  {
    if |stops| == 1 {
      StopTextParens(stops[0]);
    } else if |stops| > 1 {
      StopTextParens(stops[0]);
      StopListParens(stops[1..]);
      ParenAfterAConcat(StopText(stops[0]), ", ");
      ParenAfterAConcat(StopText(stops[0]) + ", ", StopListText(stops[1..]));
    }
  }

  lemma ArgumentsParens(kind: GradientKind, angle: int, stops: seq<ColorStop>)
    ensures ParenAfterA(Arguments(kind, angle, stops))
  {
    StopListParens(stops);
    var head := if kind == Linear then IntToString(angle) + "deg, " else "circle, ";
    NoParenNumber(angle);
    assert NoOpenParen(head);
    ParenAfterAConcat(head, StopListText(stops));
    ParenAfterAConcat(head + StopListText(stops), ")");
    assert Arguments(kind, angle, stops) == head + StopListText(stops) + ")";
  }

  predicate OccursAt(t: string, g: string, i: int)
  {
    0 <= i && i + |g| <= |t| && t[i..i + |g|] == g
  }

  /** Every export snippet holds the gradient string exactly once: right
      after the template's fixed prefix, and nowhere else. */
  lemma ExportHoldsGradientOnce(format: string, kind: GradientKind, angle: int, stops: seq<ColorStop>)
    ensures var g := GradientString(kind, angle, stops);
      OccursAt(ExportText(format, g), g, |TemplateFor(format).prefix|)
    ensures var g := GradientString(kind, angle, stops);
      forall i :: OccursAt(ExportText(format, g), g, i) ==> i == |TemplateFor(format).prefix|
  {
    var g := GradientString(kind, angle, stops);
    var pre, suf := TemplateFor(format).prefix, TemplateFor(format).suffix;
    var t := ExportText(format, g);
    EmbeddedAt(pre, g, suf);
    TemplateNoParen(format);
    ArgumentsParens(kind, angle, stops);
    FunctionNameShape(kind);
    forall i | OccursAt(t, g, i) ensures i == |pre| {
      OnlyOneGradientStart(pre, g, suf, FunctionName(kind), Arguments(kind, angle, stops), i);
    }
  }

  lemma EmbeddedAt(pre: string, g: string, suf: string)
    ensures OccursAt(pre + g + suf, g, |pre|)
  {
    assert (pre + g + suf)[|pre|..|pre| + |g|] == g;
  }

  /** The helper of ExportHoldsGradientOnce: where an occurrence can start. */
  lemma OnlyOneGradientStart(pre: string, g: string, suf: string, name: string, args: string, i: int)
    requires NoOpenParen(pre) && NoOpenParen(suf) && ParenAfterA(args)
    requires |name| == 16 && name[14] == 't' && name[15] == '('
    requires forall k :: 0 <= k < 15 ==> name[k] != '('
    requires g == name + args
    requires OccursAt(pre + g + suf, g, i)
    ensures i == |pre|
  {
    var t := pre + g + suf;
    var q := i + 15;
    assert t[q] == g[15] == '(' && t[q - 1] == g[14] == 't' by {
      assert t[i..i + |g|][15] == g[15];
      assert t[i..i + |g|][14] == g[14];
    }
    if q < |pre| {
      assert false;
    } else if q >= |pre| + |g| {
      assert false;
    } else {
      var j := q - |pre|;
      assert g[j] == '(' && t[q - 1] == (pre + g)[q - 1];
      if j < 15 {
        assert false;
      } else if j > 15 {
        assert false;
      }
    }
  }
}
