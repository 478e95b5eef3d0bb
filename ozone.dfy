/** The dashboard's chart callback: six checkbox values and the Abbotsford
    line type in, a figure with the selected traces, a title and two axis
    titles out. */
module Ozone {
  import opened Data
  import opened Plot

  datatype Station = Yvr | Abbotsford

  /** Raw hourly readings, their 7-day centred mean, or the daily MDA8. */
  datatype Product = Raw | Smoothed | Mda8

  /** One of the six checkboxes on the page. */
  datatype Checkbox = Checkbox(station: Station, product: Product)

  /** The value of the single option of each checkbox; a ticked box holds
      exactly the one-element list of this value. */
  function OptionValue(b: Checkbox): string
  {
    match b
    case Checkbox(Yvr, Raw) => "yvrr"
    case Checkbox(Yvr, Smoothed) => "yvrs"
    case Checkbox(Yvr, Mda8) => "yvrm"
    case Checkbox(Abbotsford, Raw) => "abbr"
    case Checkbox(Abbotsford, Smoothed) => "abbs"
    case Checkbox(Abbotsford, Mda8) => "abbm"
  }

  /** The six checkbox values as the callback receives them, in its parameter order. */
  datatype Inputs = Inputs(
    yvrr: seq<string>, yvrs: seq<string>, yvrm: seq<string>,
    abbr: seq<string>, abbs: seq<string>, abbm: seq<string>)

  function ValueOf(inp: Inputs, b: Checkbox): seq<string>
  {
    match b
    case Checkbox(Yvr, Raw) => inp.yvrr
    case Checkbox(Yvr, Smoothed) => inp.yvrs
    case Checkbox(Yvr, Mda8) => inp.yvrm
    case Checkbox(Abbotsford, Raw) => inp.abbr
    case Checkbox(Abbotsford, Smoothed) => inp.abbs
    case Checkbox(Abbotsford, Mda8) => inp.abbm
  }

  /** A box counts as ticked only when its value equals the exact
      one-element list of its option value; `[]` and any other list do not. */
  predicate IsSelected(inp: Inputs, b: Checkbox)
  {
    ValueOf(inp, b) == [OptionValue(b)]
  }

  /** The order in which the callback tests the boxes and appends their traces. */
  const DrawOrder: seq<Checkbox> := [
    Checkbox(Yvr, Raw), Checkbox(Abbotsford, Raw),
    Checkbox(Yvr, Smoothed), Checkbox(Abbotsford, Smoothed),
    Checkbox(Yvr, Mda8), Checkbox(Abbotsford, Mda8)]

  /** Rank of each box in that order, stated box by box. */
  function Position(b: Checkbox): nat
  {
    match b
    case Checkbox(Yvr, Raw) => 0
    case Checkbox(Abbotsford, Raw) => 1
    case Checkbox(Yvr, Smoothed) => 2
    case Checkbox(Abbotsford, Smoothed) => 3
    case Checkbox(Yvr, Mda8) => 4
    case Checkbox(Abbotsford, Mda8) => 5
  }

  /** The box a trace belongs to, recovered from its y series. */
  function BoxOf(t: Trace): Checkbox
  {
    match t.y
    case YvrPpb => Checkbox(Yvr, Raw)
    case AbbotsfordPpb => Checkbox(Abbotsford, Raw)
    case YvrSmoothed => Checkbox(Yvr, Smoothed)
    case AbbSmoothed => Checkbox(Abbotsford, Smoothed)
    case YvrMax8hrsAvg => Checkbox(Yvr, Mda8)
    case AbbMax8hrsAvg => Checkbox(Abbotsford, Mda8)
  }

  /** The trace a ticked box adds. YVR traces are always drawn as lines,
      Abbotsford traces in the chosen line type; both MDA8 traces use the
      daily index of the YVR MDA8 series as x and a line width of 2. */
  function TraceFor(b: Checkbox, linetype: string): (t: Trace)
    ensures BoxOf(t) == b
    ensures t.mode == if b.station == Yvr then "lines" else linetype
    ensures t.x == if b.product == Mda8 then YvrDailyIndex else HourlyIndex
    ensures t.line.width == if b.product == Mda8 then Some(2) else None
  {
    match b
    case Checkbox(Yvr, Raw) =>
      Trace(HourlyIndex, YvrPpb, "lines", Line("MediumTurquoise", None), "YVR raw")
    case Checkbox(Abbotsford, Raw) =>
      Trace(HourlyIndex, AbbotsfordPpb, linetype, Line("SandyBrown", None), "Abb raw")
    case Checkbox(Yvr, Smoothed) =>
      Trace(HourlyIndex, YvrSmoothed, "lines", Line("green", None), "YVR 7-day average")
    case Checkbox(Abbotsford, Smoothed) =>
      Trace(HourlyIndex, AbbSmoothed, linetype, Line("red", None), "Abb 7-day average")
    case Checkbox(Yvr, Mda8) =>
      Trace(YvrDailyIndex, YvrMax8hrsAvg, "lines", Line("blue", Some(2)), "YVR max daily 8hr avg")
    case Checkbox(Abbotsford, Mda8) =>
      Trace(YvrDailyIndex, AbbMax8hrsAvg, linetype, Line("firebrick", Some(2)), "Abb max daily 8hr avg")
  }

  function StationTitle(s: Station): string
  {
    match s
    case Yvr => "Vancouver Airport"
    case Abbotsford => "Abbotsford"
  }

  const CombinedTitle: string := "Vancouver Airport and Abbotsford"

  /** What testing box `b` adds to the trace list: its trace when ticked, nothing otherwise. */
  function Contribution(inp: Inputs, linetype: string, b: Checkbox): seq<Trace>
  {
    if IsSelected(inp, b) then [TraceFor(b, linetype)] else []
  }

  /** The traces appended while the callback walks through `boxes` in
      order: one per ticked box, none for the others. Its contract is only a
      bound; what the list holds is stated by DrawnTracesElements,
      DrawnTracesCount and DrawnTracesSorted below. */
  function DrawnTraces(inp: Inputs, linetype: string, boxes: seq<Checkbox>): (r: seq<Trace>)
    ensures |r| <= |boxes|
  {
    if boxes == [] then []
    else
      var last := boxes[|boxes| - 1];
      DrawnTraces(inp, linetype, boxes[..|boxes| - 1]) + Contribution(inp, linetype, last)
  }

  /** The title after testing box `b`: overwritten with the box's station
      when it is ticked, unchanged otherwise. */
  function Overwrite(inp: Inputs, b: Checkbox, title: Option<string>): Option<string>
  {
    if IsSelected(inp, b) then Some(StationTitle(b.station)) else title
  }

  /** The title after the per-box assignments for `boxes`, starting from no
      title: successive overwrites, so the last ticked box wins. */
  function TitleAfter(inp: Inputs, boxes: seq<Checkbox>): Option<string>
  {
    if boxes == [] then None
    else Overwrite(inp, boxes[|boxes| - 1], TitleAfter(inp, boxes[..|boxes| - 1]))
  }

  /** Some box of station `s` is ticked. */
  predicate StationShown(inp: Inputs, s: Station)
  {
    exists p :: IsSelected(inp, Checkbox(s, p))
  }

  /** The title the callback leaves: the combined title when both stations
      have a ticked box, otherwise whatever the per-box assignments left. */
  function FinalTitle(inp: Inputs): Option<string>
  {
    if StationShown(inp, Yvr) && StationShown(inp, Abbotsford) then Some(CombinedTitle)
    else TitleAfter(inp, DrawOrder)
  }

  /** The final combined-title test, written box by box as the callback does. */
  lemma StationShownCases(inp: Inputs, s: Station)
    ensures StationShown(inp, s) <==>
      IsSelected(inp, Checkbox(s, Raw)) || IsSelected(inp, Checkbox(s, Smoothed))
      || IsSelected(inp, Checkbox(s, Mda8))
  {
  }

  /** The callback's final test, on the six values as it writes it, decides
      the same thing as "both stations have a ticked box". */
  lemma CombinedTest(inp: Inputs)
    ensures (StationShown(inp, Yvr) && StationShown(inp, Abbotsford)) <==>
      (inp.yvrr == ["yvrr"] || inp.yvrs == ["yvrs"] || inp.yvrm == ["yvrm"])
      && (inp.abbr == ["abbr"] || inp.abbs == ["abbs"] || inp.abbm == ["abbm"])
  {
    StationShownCases(inp, Yvr);
    StationShownCases(inp, Abbotsford);
  }

  /** Testing one more box extends both folds by that box alone. */
  lemma FoldSnoc(inp: Inputs, linetype: string, boxes: seq<Checkbox>, b: Checkbox)
    ensures DrawnTraces(inp, linetype, boxes + [b])
      == DrawnTraces(inp, linetype, boxes) + Contribution(inp, linetype, b)
    ensures TitleAfter(inp, boxes + [b]) == Overwrite(inp, b, TitleAfter(inp, boxes))
  {
  }

  /** One of the callback's six tests. When the box's value is exactly the
      one-element list of its option value, append the box's trace and
      overwrite the title with the box's station; otherwise change nothing.
      Either way the figure moves one box further along both folds. */
  method ShowIfTicked(
    fig: Figure, value: seq<string>, b: Checkbox, linetype: string,
    ghost inp: Inputs, ghost done: seq<Checkbox>)
    requires value == ValueOf(inp, b)
    requires fig.data == DrawnTraces(inp, linetype, done)
    requires fig.title == TitleAfter(inp, done)
    modifies fig
    ensures fig.data == DrawnTraces(inp, linetype, done + [b])
    ensures fig.title == TitleAfter(inp, done + [b])
    ensures fig.xaxisTitle == old(fig.xaxisTitle) && fig.yaxisTitle == old(fig.yaxisTitle)
  {
    FoldSnoc(inp, linetype, done, b);
    if value == [OptionValue(b)] {
      fig.AddTrace(TraceFor(b, linetype));
      fig.title := Some(StationTitle(b.station));
    }
  }

  /** The chart callback. Each ticked box, examined in DrawOrder, appends its
      trace and overwrites the title with its station; when both stations
      have a ticked box the title becomes the combined one; the axis titles
      are always "Time" and "ppb". */
  method UpdateGraph(
    yvrrChkbox: seq<string>, yvrsChkbox: seq<string>, yvrmChkbox: seq<string>,
    abbrChkbox: seq<string>, abbsChkbox: seq<string>, abbmChkbox: seq<string>,
    linetype: string)
    returns (fig: Figure)
    ensures fresh(fig)
    ensures fig.data == DrawnTraces(
      Inputs(yvrrChkbox, yvrsChkbox, yvrmChkbox, abbrChkbox, abbsChkbox, abbmChkbox),
      linetype, DrawOrder)
    ensures fig.title == FinalTitle(
      Inputs(yvrrChkbox, yvrsChkbox, yvrmChkbox, abbrChkbox, abbsChkbox, abbmChkbox))
    ensures fig.xaxisTitle == Some("Time") && fig.yaxisTitle == Some("ppb")
  {
    ghost var inp := Inputs(yvrrChkbox, yvrsChkbox, yvrmChkbox, abbrChkbox, abbsChkbox, abbmChkbox);
    ghost var done: seq<Checkbox> := [];
    fig := new Figure();
    ShowIfTicked(fig, yvrrChkbox, Checkbox(Yvr, Raw), linetype, inp, done);
    done := done + [Checkbox(Yvr, Raw)];
    ShowIfTicked(fig, abbrChkbox, Checkbox(Abbotsford, Raw), linetype, inp, done);
    done := done + [Checkbox(Abbotsford, Raw)];
    ShowIfTicked(fig, yvrsChkbox, Checkbox(Yvr, Smoothed), linetype, inp, done);
    done := done + [Checkbox(Yvr, Smoothed)];
    ShowIfTicked(fig, abbsChkbox, Checkbox(Abbotsford, Smoothed), linetype, inp, done);
    done := done + [Checkbox(Abbotsford, Smoothed)];
    ShowIfTicked(fig, yvrmChkbox, Checkbox(Yvr, Mda8), linetype, inp, done);
    done := done + [Checkbox(Yvr, Mda8)];
    ShowIfTicked(fig, abbmChkbox, Checkbox(Abbotsford, Mda8), linetype, inp, done);
    done := done + [Checkbox(Abbotsford, Mda8)];
    assert done == DrawOrder;

    CombinedTest(inp);
    if (yvrrChkbox == ["yvrr"] || yvrsChkbox == ["yvrs"] || yvrmChkbox == ["yvrm"])
      && (abbrChkbox == ["abbr"] || abbsChkbox == ["abbs"] || abbmChkbox == ["abbm"])
    {
      fig.title := Some(CombinedTitle);
    }
    fig.UpdateLayout("Time", "ppb");
  }

  // ---------------------------------------------------------------------
  // Properties of the chart the callback builds
  // ---------------------------------------------------------------------

  /** DrawOrder lists every box exactly once, at its Position. */
  lemma DrawOrderFacts()
    ensures |DrawOrder| == 6
    ensures forall i :: 0 <= i < |DrawOrder| ==> Position(DrawOrder[i]) == i
    ensures forall b: Checkbox :: b in DrawOrder
  {
    forall b: Checkbox ensures b in DrawOrder {
      assert DrawOrder[Position(b)] == b;
    }
  }

  /** The ticked boxes, in no particular order. */
  function TickedBoxes(inp: Inputs): set<Checkbox>
  {
    set s: Station, p: Product | IsSelected(inp, Checkbox(s, p)) :: Checkbox(s, p)
  }

  /** The ticked boxes among `boxes`. */
  function TickedAmong(inp: Inputs, boxes: seq<Checkbox>): set<Checkbox>
  {
    set b | b in boxes && IsSelected(inp, b)
  }

  /** Every drawn trace is the trace of a ticked box among those examined,
      and every ticked box examined has its trace drawn. */
  lemma {:induction false} DrawnTracesElements(inp: Inputs, linetype: string, boxes: seq<Checkbox>)
    ensures forall i :: 0 <= i < |DrawnTraces(inp, linetype, boxes)| ==>
      var t := DrawnTraces(inp, linetype, boxes)[i];
      t == TraceFor(BoxOf(t), linetype) && BoxOf(t) in boxes && IsSelected(inp, BoxOf(t))
    ensures forall b :: b in boxes && IsSelected(inp, b) ==> TraceFor(b, linetype) in DrawnTraces(inp, linetype, boxes)
  {
    if boxes != [] {
      var init, last := boxes[..|boxes| - 1], boxes[|boxes| - 1];
      assert boxes == init + [last];
      DrawnTracesElements(inp, linetype, init);
      var r := DrawnTraces(inp, linetype, boxes);
      assert r == DrawnTraces(inp, linetype, init) + Contribution(inp, linetype, last);
      forall b | b in boxes && IsSelected(inp, b) ensures TraceFor(b, linetype) in r {
        if b != last {
          assert b in init;
        }
      }
    }
  }

  /** Over distinct boxes, one trace is drawn per ticked box. */
  lemma {:induction false} DrawnTracesCount(inp: Inputs, linetype: string, boxes: seq<Checkbox>)
    requires forall i, j :: 0 <= i < j < |boxes| ==> boxes[i] != boxes[j]
    ensures |DrawnTraces(inp, linetype, boxes)| == |TickedAmong(inp, boxes)|
  {
    if boxes != [] {
      var init, last := boxes[..|boxes| - 1], boxes[|boxes| - 1];
      assert boxes == init + [last];
      DrawnTracesCount(inp, linetype, init);
      assert last !in init;
      if IsSelected(inp, last) {
        assert TickedAmong(inp, boxes) == TickedAmong(inp, init) + {last};
      } else {
        assert TickedAmong(inp, boxes) == TickedAmong(inp, init);
      }
    }
  }

  /** Examined in increasing Position, the drawn traces come out in increasing Position. */
  lemma {:induction false} DrawnTracesSorted(inp: Inputs, linetype: string, boxes: seq<Checkbox>)
    requires forall i, j :: 0 <= i < j < |boxes| ==> Position(boxes[i]) < Position(boxes[j])
    ensures forall i, j :: 0 <= i < j < |DrawnTraces(inp, linetype, boxes)| ==>
      Position(BoxOf(DrawnTraces(inp, linetype, boxes)[i]))
        < Position(BoxOf(DrawnTraces(inp, linetype, boxes)[j]))
  {
    if boxes != [] {
      var init, last := boxes[..|boxes| - 1], boxes[|boxes| - 1];
      DrawnTracesSorted(inp, linetype, init);
      DrawnTracesElements(inp, linetype, init);
      var r0 := DrawnTraces(inp, linetype, init);
      forall i | 0 <= i < |r0| ensures Position(BoxOf(r0[i])) < Position(last) {
        var k :| 0 <= k < |init| && init[k] == BoxOf(r0[i]);
        assert boxes[k] == init[k];
      }
    }
  }

  /** The traces are exactly those of the ticked boxes: a box's trace is
      drawn if and only if the box is ticked, and nothing else is drawn. */
  lemma TracesAreTickedBoxes(inp: Inputs, linetype: string)
    ensures forall b :: TraceFor(b, linetype) in DrawnTraces(inp, linetype, DrawOrder) <==> IsSelected(inp, b)
    ensures forall t :: t in DrawnTraces(inp, linetype, DrawOrder) ==>
      t == TraceFor(BoxOf(t), linetype) && IsSelected(inp, BoxOf(t))
  {
    DrawOrderFacts();
    DrawnTracesElements(inp, linetype, DrawOrder);
  }

  /** As many traces as ticked boxes, so between none and six. */
  lemma TraceCount(inp: Inputs, linetype: string)
    ensures |DrawnTraces(inp, linetype, DrawOrder)| == |TickedBoxes(inp)| <= 6
  {
    DrawOrderFacts();
    DrawnTracesCount(inp, linetype, DrawOrder);
    assert TickedAmong(inp, DrawOrder) == TickedBoxes(inp);
  }

  /** The traces come in the order yvrr, abbr, yvrs, abbs, yvrm, abbm. */
  lemma TracesInDrawOrder(inp: Inputs, linetype: string)
    ensures forall i, j :: 0 <= i < j < |DrawnTraces(inp, linetype, DrawOrder)| ==>
      Position(BoxOf(DrawnTraces(inp, linetype, DrawOrder)[i]))
        < Position(BoxOf(DrawnTraces(inp, linetype, DrawOrder)[j]))
  {
    DrawOrderFacts();
    DrawnTracesSorted(inp, linetype, DrawOrder);
  }

  /** Changing the line type changes nothing but the modes of Abbotsford
      traces: the same traces in the same order, YVR ones identical. */
  lemma {:induction false} LinetypeOnlyAffectsAbbotsford(
    inp: Inputs, linetype1: string, linetype2: string, boxes: seq<Checkbox>)
    ensures |DrawnTraces(inp, linetype1, boxes)| == |DrawnTraces(inp, linetype2, boxes)|
    ensures forall i :: 0 <= i < |DrawnTraces(inp, linetype1, boxes)| ==>
      var t1, t2 := DrawnTraces(inp, linetype1, boxes)[i], DrawnTraces(inp, linetype2, boxes)[i];
      if BoxOf(t1).station == Yvr then t2 == t1 && t1.mode == "lines"
      else t2 == t1.(mode := linetype2) && t1.mode == linetype1
  {
    if boxes != [] {
      var init, last := boxes[..|boxes| - 1], boxes[|boxes| - 1];
      LinetypeOnlyAffectsAbbotsford(inp, linetype1, linetype2, init);
    }
  }

  /** Only whether each box is ticked matters, not what else its value holds. */
  lemma {:induction false} SameTicksSameFolds(inp1: Inputs, inp2: Inputs, linetype: string, boxes: seq<Checkbox>)
    requires forall b :: IsSelected(inp1, b) == IsSelected(inp2, b)
    ensures DrawnTraces(inp1, linetype, boxes) == DrawnTraces(inp2, linetype, boxes)
    ensures TitleAfter(inp1, boxes) == TitleAfter(inp2, boxes)
  {
    if boxes != [] {
      SameTicksSameFolds(inp1, inp2, linetype, boxes[..|boxes| - 1]);
    }
  }

  /** Inputs `inp` with the value of box `b` replaced by `v`. */
  function WithValue(inp: Inputs, b: Checkbox, v: seq<string>): (r: Inputs)
    ensures ValueOf(r, b) == v
    ensures forall c :: c != b ==> ValueOf(r, c) == ValueOf(inp, c)
  {
    match b
    case Checkbox(Yvr, Raw) => inp.(yvrr := v)
    case Checkbox(Yvr, Smoothed) => inp.(yvrs := v)
    case Checkbox(Yvr, Mda8) => inp.(yvrm := v)
    case Checkbox(Abbotsford, Raw) => inp.(abbr := v)
    case Checkbox(Abbotsford, Smoothed) => inp.(abbs := v)
    case Checkbox(Abbotsford, Mda8) => inp.(abbm := v)
  }

  /** A box whose value is anything but the exact one-element list of its
      option value (a longer list, another string, several copies) yields
      the same traces and the same title as an unticked box. */
  lemma NonExactValueIsUnticked(inp: Inputs, b: Checkbox, v: seq<string>, linetype: string)
    requires v != [OptionValue(b)]
    ensures DrawnTraces(WithValue(inp, b, v), linetype, DrawOrder)
      == DrawnTraces(WithValue(inp, b, []), linetype, DrawOrder)
    ensures FinalTitle(WithValue(inp, b, v)) == FinalTitle(WithValue(inp, b, []))
  {
    var inp1, inp2 := WithValue(inp, b, v), WithValue(inp, b, []);
    assert forall c :: IsSelected(inp1, c) == IsSelected(inp2, c);
    SameTicksSameFolds(inp1, inp2, linetype, DrawOrder);
    assert StationShown(inp1, Yvr) == StationShown(inp2, Yvr);
    assert StationShown(inp1, Abbotsford) == StationShown(inp2, Abbotsford);
  }

  /** When every ticked box among `boxes` belongs to station `s`, the
      successive overwrites leave that station's name, or no title at all
      when none of them is ticked. */
  lemma {:induction false} TitleAfterOneStation(inp: Inputs, boxes: seq<Checkbox>, s: Station)
    requires forall b :: b in boxes && IsSelected(inp, b) ==> b.station == s
    ensures TitleAfter(inp, boxes)
      == if exists b :: b in boxes && IsSelected(inp, b) then Some(StationTitle(s)) else None
  {
    if boxes != [] {
      var init, last := boxes[..|boxes| - 1], boxes[|boxes| - 1];
      assert boxes == init + [last];
      TitleAfterOneStation(inp, init, s);
      if !IsSelected(inp, last) {
        assert (exists b :: b in boxes && IsSelected(inp, b))
          == (exists b :: b in init && IsSelected(inp, b));
      }
    }
  }

  /** The title rule: "Vancouver Airport" when only YVR boxes are ticked,
      "Abbotsford" when only Abbotsford boxes are, the combined title when
      both stations have one, and no title when no box is ticked. */
  lemma TitleRule(inp: Inputs)
    ensures FinalTitle(inp) == Some("Vancouver Airport")
      <==> StationShown(inp, Yvr) && !StationShown(inp, Abbotsford)
    ensures FinalTitle(inp) == Some("Abbotsford")
      <==> !StationShown(inp, Yvr) && StationShown(inp, Abbotsford)
    ensures FinalTitle(inp) == Some("Vancouver Airport and Abbotsford")
      <==> StationShown(inp, Yvr) && StationShown(inp, Abbotsford)
    ensures FinalTitle(inp) == None
      <==> !StationShown(inp, Yvr) && !StationShown(inp, Abbotsford)
  {
    DrawOrderFacts();
    var shownYvr, shownAbb := StationShown(inp, Yvr), StationShown(inp, Abbotsford);
    if shownYvr && !shownAbb {
      var p :| IsSelected(inp, Checkbox(Yvr, p));
      assert Checkbox(Yvr, p) in DrawOrder;
      TitleAfterOneStation(inp, DrawOrder, Yvr);
    } else if !shownYvr && shownAbb {
      var p :| IsSelected(inp, Checkbox(Abbotsford, p));
      assert Checkbox(Abbotsford, p) in DrawOrder;
      TitleAfterOneStation(inp, DrawOrder, Abbotsford);
    } else if !shownYvr && !shownAbb {
      TitleAfterOneStation(inp, DrawOrder, Yvr);
    }
  }

  /** The title depends only on which stations have a ticked box. */
  lemma TitleDependsOnlyOnStations(inp1: Inputs, inp2: Inputs)
    requires StationShown(inp1, Yvr) == StationShown(inp2, Yvr)
    requires StationShown(inp1, Abbotsford) == StationShown(inp2, Abbotsford)
    ensures FinalTitle(inp1) == FinalTitle(inp2)
  {
    TitleRule(inp1);
    TitleRule(inp2);
  }

  /** With no box ticked the chart is empty and no title is ever assigned. */
  lemma NothingTicked(inp: Inputs, linetype: string)
    requires forall b :: !IsSelected(inp, b)
    ensures DrawnTraces(inp, linetype, DrawOrder) == []
    ensures FinalTitle(inp) == None
  {
    TraceCount(inp, linetype);
    assert TickedBoxes(inp) == {};
    TitleRule(inp);
  }
}
