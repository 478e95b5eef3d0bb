# Ozone at YVR and Abbotsford: the chart callback

This project models the chart callback of a small dashboard. The dashboard
compares hourly ozone readings (ppb) at Vancouver Airport (YVR) and
Abbotsford for 2017. Six checkboxes choose which series to show: raw,
7-day average and maximum daily 8-hour average (MDA8), each for both stations.
A drop-down picks the draw mode of the Abbotsford traces. On every change the
callback `update_graph` builds a new figure. The figure has one trace per
ticked box, in a fixed order and with fixed styling, a title that names the
station or stations shown, and the axis titles "Time" and "ppb".

The series are computed once at start-up and are opaque identifiers here
(`Data.Series`, `Data.TimeIndex`). The model covers only which series are
shown, in what order and with what labels.

- `data.dfy` (module `Data`): the identifiers of the six y series and of the
  two x indexes.
- `plot.dfy` (module `Plot`): a trace as a record (x, y, mode, line colour and
  width, legend name), and `Figure`, a class whose trace list grows by appends
  and whose title and axis titles are overwritten in place.
- `ozone.dfy` (module `Ozone`): the callback `UpdateGraph`, which changes a
  fresh `Figure` step by step as the source does. It is proved against two
  folds over the fixed test order `DrawOrder`: `DrawnTraces` (the trace list)
  and `TitleAfter` (the successive title overwrites), followed by `FinalTitle`
  (the override when both stations are shown). The lemmas after it state what
  the chart is, for every input.

The six `if` blocks of the callback have the same shape: test one box, append
its trace, overwrite the title. They are modelled as one method,
`ShowIfTicked`, which `UpdateGraph` calls six times in the source's order. The
final combined-title test and the axis titles are written inline, as in the
source.

A box counts as ticked only when its value is exactly the one-element list of
its option value (`["yvrr"]` for the YVR raw box). This is the same exact list
comparison the code makes.

Facts about the code that the model keeps:
- The YVR raw trace is MediumTurquoise (ozone01.py:192).
- With no box ticked, the title is never assigned and stays `None`.
- A station's name is the title whenever at least one of its boxes, and none
  of the other station's boxes, is ticked.
- The Abbotsford MDA8 trace uses the index of the YVR MDA8 series as x
  (ozone01.py:212).

## Model

| member | source | states |
|---|---|---|
| `Plot.Figure.constructor` | ozone01.py:189 | a new figure has no traces, no title and no axis titles |
| `Plot.Figure.AddTrace` | ozone01.py:191-192 | `add_trace` appends the trace after the existing ones and changes nothing else |
| `Plot.Figure.UpdateLayout` | ozone01.py:218 | `update_layout` sets both axis titles and leaves traces and title as they were |
| `Ozone.TraceFor` | ozone01.py:190-214 | each box's trace belongs to that box; YVR traces have mode "lines" and Abbotsford traces have the chosen line type; both MDA8 traces use the YVR daily index as x and width 2; the other traces use the hourly index and the default width |
| `Ozone.OptionValue` | ozone01.py:85-131 | definition, no contract: the option value of each of the six checkboxes; `NonExactValueIsUnticked` and `TitleRule` carry the properties that use it |
| `Ozone.IsSelected` | ozone01.py:190-214 | definition, no contract: a box counts as ticked only when its value equals the exact one-element list of its option value; `NonExactValueIsUnticked` states that every other value acts as unticked |
| `Ozone.Overwrite` | ozone01.py:193-214 | definition, no contract: one `fig.layout.title =` assignment, made only when the box is ticked; `TitleRule` carries the property |
| `Ozone.TitleAfter` | ozone01.py:193-214 | definition, no contract: the successive title assignments over the boxes in order, so the last ticked box wins; `TitleAfterOneStation` and `TitleRule` carry the property |
| `Ozone.FinalTitle` | ozone01.py:216-217 | definition, no contract: the combined-title override when both stations have a ticked box; `TitleRule` states all four title cases |
| `Ozone.DrawOrderFacts` | ozone01.py:190-214 | the constant `DrawOrder`, the order of the six `if`s, lists every box exactly once, at its `Position`; `TracesInDrawOrder` uses this to state the trace order |
| `Ozone.DrawnTraces` | ozone01.py:189-214 | testing the boxes in order and appending one trace per ticked box never gives more traces than boxes examined |
| `Ozone.ShowIfTicked` | ozone01.py:190-193 | one test: with the exact one-element value, the box's trace is appended and the title becomes its station's name; otherwise nothing changes; either way the figure advances one box along both folds |
| `Ozone.UpdateGraph` | ozone01.py:187-220 | the callback returns a new figure whose traces are `DrawnTraces` over the source's test order, whose title is `FinalTitle`, and whose axis titles are "Time" and "ppb" |
| `Ozone.StationShownCases` | ozone01.py:216 | "some box of the station is ticked" is the same as the three-way `or` the code writes for that station |
| `Ozone.CombinedTest` | ozone01.py:216 | the code's final test on the six raw values holds exactly when both stations have a ticked box |
| `Ozone.DrawnTracesElements` | ozone01.py:190-214 | every drawn trace is the trace of a ticked box among those examined, and every ticked box examined has its trace drawn |
| `Ozone.DrawnTracesCount` | ozone01.py:190-214 | over distinct boxes, the number of traces equals the number of ticked boxes |
| `Ozone.DrawnTracesSorted` | ozone01.py:190-214 | boxes examined in increasing position give traces in increasing position |
| `Ozone.TracesAreTickedBoxes` | ozone01.py:190-214 | a box's trace is in the chart if and only if the box is ticked, and every trace in the chart is the trace of a ticked box |
| `Ozone.TraceCount` | ozone01.py:190-214 | the number of traces equals the number of ticked boxes, from 0 to 6 |
| `Ozone.TracesInDrawOrder` | ozone01.py:190-214 | traces appear in the order yvrr, abbr, yvrs, abbs, yvrm, abbm |
| `Ozone.LinetypeOnlyAffectsAbbotsford` | ozone01.py:190-214 | a different line type gives the same number of traces; YVR traces stay identical with mode "lines"; Abbotsford traces differ only in their mode, which equals the line type |
| `Ozone.SameTicksSameFolds` | ozone01.py:190-214 | two inputs with the same ticked boxes give the same traces and the same per-box title |
| `Ozone.WithValue` | ozone01.py:187 | replacing one box's value changes that box's value and no other |
| `Ozone.NonExactValueIsUnticked` | ozone01.py:190-217 | any value other than the exact one-element list gives the same traces and title as an empty value |
| `Ozone.TitleAfterOneStation` | ozone01.py:190-214 | when all ticked boxes belong to one station, the successive overwrites leave that station's name, or no title when no box is ticked |
| `Ozone.TitleRule` | ozone01.py:190-217 | the title is "Vancouver Airport" iff only YVR boxes are ticked, "Abbotsford" iff only Abbotsford boxes are, "Vancouver Airport and Abbotsford" iff both stations have a ticked box, and absent iff no box is ticked |
| `Ozone.TitleDependsOnlyOnStations` | ozone01.py:193-217 | inputs with the same set of stations shown get the same title, whichever boxes and order produced it |
| `Ozone.NothingTicked` | ozone01.py:189-217 | with no box ticked the trace list is empty and no title is assigned |

## Left out

- Loading the CSV file (ozone01.py:27) is file I/O. The table is not modelled.
- The 7-day centred rolling means, the 8-hour rolling means and the daily
  maxima (ozone01.py:30-45) are floating-point pandas computations. Their
  results are the opaque identifiers in `Data`.
- The Dash app, page layout and Markdown text (ozone01.py:20-22, 55-174) are UI.
  The callback registration and `run_server` (ozone01.py:177-186, 226-227) are
  framework plumbing and the web server.
- Plotly's figure and scatter objects keep only the fields the callback sets.
  Defaults, validation and rendering are not modelled.
- Checkbox values are lists of strings and the line type is a string. A `None`
  value, such as a cleared drop-down, cannot be expressed. The line type goes
  into the Abbotsford modes unchecked, as the callback passes it; Plotly's own
  validation of `mode` is not modelled.
- `TraceFor`: the colour and legend name of each trace are fixed by its table
  (MediumTurquoise "YVR raw", SandyBrown "Abb raw", green "YVR 7-day average",
  red "Abb 7-day average", blue "YVR max daily 8hr avg", firebrick "Abb max
  daily 8hr avg"). Its contract does not restate them.
