/** The part of a chart figure that the dashboard callback builds: an ordered
    list of scatter traces, a layout title and the two axis titles. */
module Plot {
  import opened Data

  datatype Option<+T> = None | Some(value: T)

  /** Line styling of a trace; `width` is None when the plotting default applies. */
  datatype Line = Line(color: string, width: Option<nat>)

  /** One scatter trace: x and y data, draw mode, line style and legend name. */
  datatype Trace = Trace(x: TimeIndex, y: Series, mode: string, line: Line, name: string)

  /** A figure under construction. A fresh figure has no traces and no
      layout titles; traces are appended in place, and the callback assigns
      the `title` field directly, overwriting whatever was there. */
  class Figure {
    var data: seq<Trace>
    var title: Option<string>
    var xaxisTitle: Option<string>
    var yaxisTitle: Option<string>

    constructor ()
      ensures data == [] && title == None
      ensures xaxisTitle == None && yaxisTitle == None
    {
      data := [];
      title := None;
      xaxisTitle := None;
      yaxisTitle := None;
    }

    /** Appends `t` after the traces already in the figure. */
    method AddTrace(t: Trace)
      modifies this
      ensures data == old(data) + [t]
      ensures title == old(title)
      ensures xaxisTitle == old(xaxisTitle) && yaxisTitle == old(yaxisTitle)
    {
      data := data + [t];
    }

    /** Sets both axis titles and leaves traces and title alone. */
    method UpdateLayout(xTitle: string, yTitle: string)
      modifies this
      ensures xaxisTitle == Some(xTitle) && yaxisTitle == Some(yTitle)
      ensures data == old(data) && title == old(title)
    {
      xaxisTitle := Some(xTitle);
      yaxisTitle := Some(yTitle);
    }
  }
}
