/** The metadata preflight (src/spaceman/dmi_decode.rs): the counts a state description
    would allocate are bounded before the parser runs. */
module MetadataText {
  import opened Basics
  import opened IconLimits

  /** A line after the header, as far as the preflight looks at it. */
  datatype Line =
    | EndOfData
    | Malformed
    | CellSize(positive: bool)
    | StateName(quoted: bool)
    | DirCount(dirs: Option<nat>)
    | FrameCount(frames: Option<nat>)
    | Delays(count: nat, finite: bool)
    | LoopCount(valid: bool)
    | Flag(valid: bool)
    | Hotspot
    | UnknownKey

  datatype Row = Row(dirs: nat, frames: nat, hasFrames: bool, hasDelay: bool)

  predicate IsProperty(line: Line) {
    line.DirCount? || line.FrameCount? || line.Delays? || line.LoopCount? || line.Flag?
  }

  function SetRow(row: Row, line: Line): Row {
    match line
    case DirCount(Some(d)) => row.(dirs := d)
    case FrameCount(Some(n)) => row.(frames := n, hasFrames := true)
    case Delays(count, _) => row.(frames := if row.hasFrames then row.frames else count, hasDelay := true)
    case _ => row
  }

  /** The states described by the lines read so far. */
  function Apply(rows: seq<Row>, line: Line): seq<Row> {
    if line.StateName? then rows + [Row(1, 1, false, false)]
    else if IsProperty(line) && rows != [] then rows[|rows| - 1 := SetRow(rows[|rows| - 1], line)]
    else rows
  }

  function Rows(lines: seq<Line>): seq<Row> {
    if lines == [] then [] else Apply(Rows(lines[..|lines| - 1]), lines[|lines| - 1])
  }

  predicate SetsDirs(line: Line) {
    line.DirCount? && line.dirs.Some?
  }

  /** The last direction count, or one. */
  ghost predicate DescribesDirs(lines: seq<Line>, dirs: nat) {
    if exists k :: 0 <= k < |lines| && SetsDirs(lines[k])
    then exists k :: 0 <= k < |lines| && lines[k] == DirCount(Some(dirs)) && forall j :: k < j < |lines| ==> !SetsDirs(lines[j])
    else dirs == 1
  }

  /** The frame count, or the length of the delay list, or one. */
  ghost predicate DescribesFrames(lines: seq<Line>, row: Row) {
    && (row.hasFrames <==> exists k :: 0 <= k < |lines| && lines[k].FrameCount? && lines[k].frames.Some?)
    && (row.hasDelay <==> exists k :: 0 <= k < |lines| && lines[k].Delays?)
    && (row.hasFrames ==> exists k :: 0 <= k < |lines| && lines[k] == FrameCount(Some(row.frames)))
    && (!row.hasFrames && row.hasDelay ==> exists k :: 0 <= k < |lines| && lines[k].Delays? && lines[k].count == row.frames)
    && (!row.hasFrames && !row.hasDelay ==> row.frames == 1)
  }

  /** What the lines of one state come to. */
  ghost predicate Describes(lines: seq<Line>, row: Row) {
    DescribesDirs(lines, row.dirs) && DescribesFrames(lines, row)
  }

  lemma LastLine(lines: seq<Line>, line: Line)
    ensures (lines + [line])[|lines|] == line
    ensures forall k :: 0 <= k < |lines| ==> (lines + [line])[k] == lines[k]
  {
  }

  lemma DirsNext(lines: seq<Line>, dirs: nat, line: Line)
    requires DescribesDirs(lines, dirs)
    ensures DescribesDirs(lines + [line], if SetsDirs(line) then line.dirs.value else dirs)
  {
    LastLine(lines, line);
    if exists k :: 0 <= k < |lines| && SetsDirs(lines[k]) {
      var k :| 0 <= k < |lines| && lines[k] == DirCount(Some(dirs)) && forall j :: k < j < |lines| ==> !SetsDirs(lines[j]);
      assert (lines + [line])[k] == DirCount(Some(dirs));
    }
  }

  lemma FramesNext(lines: seq<Line>, row: Row, line: Line)
    requires DescribesFrames(lines, row)
    ensures DescribesFrames(lines + [line], if IsProperty(line) then SetRow(row, line) else row)
  {
    LastLine(lines, line);
  }

  lemma DescribesNext(lines: seq<Line>, row: Row, line: Line)
    requires Describes(lines, row)
    ensures Describes(lines + [line], if IsProperty(line) then SetRow(row, line) else row)
  {
    hide DescribesDirs, DescribesFrames;
    DirsNext(lines, row.dirs, line);
    FramesNext(lines, row, line);
  }

  /** The state that a state line opens is described by the lines up to the next one. */
  lemma {:induction false} StateDescribed(lines: seq<Line>, from: nat)
    requires from < |lines| && lines[from].StateName?
    requires forall k :: from < k < |lines| ==> !lines[k].StateName?
    ensures var rows := Rows(lines);
            && |rows| == |Rows(lines[..from])| + 1 && rows[..|rows| - 1] == Rows(lines[..from])
            && Describes(lines[from + 1..], rows[|rows| - 1])
    decreases |lines|
  {
    hide Describes, SetRow;
    var n := |lines| - 1;
    if from == n {
      NothingDescribed();
      assert lines[from + 1..] == [];
    } else {
      StateDescribed(lines[..n], from);
      assert lines[..n][..from] == lines[..from];
      var rows := Rows(lines[..n]);
      DescribesNext(lines[..n][from + 1..], rows[|rows| - 1], lines[n]);
      assert lines[from + 1..] == lines[..n][from + 1..] + [lines[n]];
    }
  }

  lemma NothingDescribed()
    ensures Describes([], Row(1, 1, false, false))
  {
  }

  function Counts(rows: seq<Row>): seq<(nat, nat)> {
    seq(|rows|, i requires 0 <= i < |rows| => (rows[i].dirs, rows[i].frames))
  }

  predicate Fits(rows: seq<Row>, limits: Limits) {
    Cells(Counts(rows)) <= limits.frames && Cells(Counts(rows)) <= U32_MAX
  }

  lemma CountsLast(rows: seq<Row>, row: Row)
    ensures Cells(Counts(rows + [row])) == Cells(Counts(rows)) + row.dirs * row.frames
    ensures Cells(Counts([])) == 0
  {
    var all := Counts(rows + [row]);
    assert all[..|all| - 1] == Counts(rows);
  }

  /** The error of a property of the open state, apart from the running total. */
  function PropertyError(row: Row, line: Line, limits: Limits): Option<Error>
    requires IsProperty(line)
  {
    match line
    case DirCount(dirs) => if dirs == Some(1) || dirs == Some(4) || dirs == Some(8) then None else Some(Invalid)
    case FrameCount(frames) => if row.hasFrames || row.hasDelay || frames.None? then Some(Invalid) else None
    case Delays(count, finite) =>
      if row.hasDelay then Some(Invalid)
      else if count > limits.frames then Some(FrameLimit)
      else if !finite then Some(Invalid)
      else None
    case LoopCount(valid) => if valid then None else Some(Invalid)
    case Flag(valid) => if valid then None else Some(Invalid)
  }

  /** The error of a line after the states read so far, tests in the order they are made. */
  function LineError(rows: seq<Row>, line: Line, limits: Limits): Option<Error> {
    match line
    case EndOfData => None
    case Malformed => Some(Invalid)
    case CellSize(positive) => if positive then None else Some(Invalid)
    case StateName(quoted) =>
      if !Fits(rows, limits) then Some(FrameLimit)
      else if |rows| >= limits.states then Some(StateLimit)
      else if !quoted then Some(Invalid)
      else None
    case Hotspot => None
    case UnknownKey => Some(Invalid)
    case _ =>
      if rows == [] then Some(Invalid)
      else
        var first := PropertyError(rows[|rows| - 1], line, limits);
        if first.Some? then first else if !Fits(Apply(rows, line), limits) then Some(FrameLimit) else None
  }

  /** How many lines come before the end marker. */
  function BodyLength(lines: seq<Line>): (n: nat)
    ensures n <= |lines| && (n < |lines| ==> lines[n].EndOfData?)
    ensures forall k :: 0 <= k < n ==> !lines[k].EndOfData?
  {
    if lines == [] || lines[0].EndOfData? then 0 else 1 + BodyLength(lines[1..])
  }

  /** The first error of the lines from `i` on, or of the counts at the end. */
  function FirstError(lines: seq<Line>, i: nat, n: nat, limits: Limits): Option<Error>
    requires i <= n <= |lines|
    decreases n - i
  {
    if i == n then if Fits(Rows(lines[..n]), limits) then None else Some(FrameLimit)
    else
      var error := LineError(Rows(lines[..i]), lines[i], limits);
      if error.Some? then error else FirstError(lines, i + 1, n, limits)
  }

  /** A description: its bytes, whether its first two lines are the header, and the rest. */
  datatype Text = Text(length: nat, headed: bool, lines: seq<Line>)

  function TextError(text: Text, limits: Limits): Option<Error> {
    if text.length == 0 then None
    else if !text.headed then Some(Invalid)
    else FirstError(text.lines, 0, BodyLength(text.lines), limits)
  }

  function TextRows(text: Text): seq<Row> {
    if text.length == 0 then [] else Rows(text.lines[..BodyLength(text.lines)])
  }

  // --------------------------------------------- what is accepted under which limits

  /** A line that no limit is needed to refuse is refused under all limits. */
  predicate LineWell(rows: seq<Row>, line: Line) {
    match line
    case EndOfData => true
    case Malformed => false
    case CellSize(positive) => positive
    case StateName(quoted) => quoted
    case Hotspot => true
    case UnknownKey => false
    case DirCount(dirs) => rows != [] && (dirs == Some(1) || dirs == Some(4) || dirs == Some(8))
    case FrameCount(frames) => rows != [] && frames.Some? && !rows[|rows| - 1].hasFrames && !rows[|rows| - 1].hasDelay
    case Delays(_, finite) => rows != [] && finite && !rows[|rows| - 1].hasDelay
    case LoopCount(valid) => rows != [] && valid
    case Flag(valid) => rows != [] && valid
  }

  /** After a property line the running total is within the limit, and so is a delay list. */
  predicate RunningFits(rows: seq<Row>, line: Line, limits: Limits) {
    IsProperty(line) ==> Fits(Apply(rows, line), limits) && (line.Delays? ==> line.count <= limits.frames)
  }

  predicate StateFits(rows: seq<Row>, line: Line, limits: Limits) {
    line.StateName? ==> Fits(rows, limits) && |rows| < limits.states
  }

  predicate WellFormed(text: Text) {
    var n := BodyLength(text.lines);
    text.length == 0 || (text.headed && forall k :: 0 <= k < n ==> LineWell(Rows(text.lines[..k]), text.lines[k]))
  }

  predicate WithinRunning(text: Text, limits: Limits) {
    var n := BodyLength(text.lines);
    text.length == 0 || forall k :: 0 <= k < n ==> RunningFits(Rows(text.lines[..k]), text.lines[k], limits)
  }

  lemma LineErrorIff(rows: seq<Row>, line: Line, limits: Limits)
    ensures LineError(rows, line, limits).None?
       <==> LineWell(rows, line) && RunningFits(rows, line, limits) && StateFits(rows, line, limits)
  {
    hide Fits, Apply;
  }

  lemma {:induction false} FirstErrorIff(lines: seq<Line>, i: nat, n: nat, limits: Limits)
    requires i <= n <= |lines|
    ensures FirstError(lines, i, n, limits).None?
       <==> Fits(Rows(lines[..n]), limits)
            && forall k :: i <= k < n ==> LineError(Rows(lines[..k]), lines[k], limits).None?
    decreases n - i
  {
    hide Fits, LineError, Rows;
    if i < n {
      FirstErrorIff(lines, i + 1, n, limits);
    }
  }

  /** A state line closes the states before it: they stay as they are. */
  lemma {:induction false} ClosedRows(lines: seq<Line>, k: nat, m: nat)
    requires k < m <= |lines| && lines[k].StateName?
    ensures var r := Rows(lines[..k]);
            |r| < |Rows(lines[..m])| && Rows(lines[..m])[..|r|] == r
    decreases m
  {
    assert lines[..m][..m - 1] == lines[..m - 1];
    hide SetRow;
    if k < m - 1 {
      ClosedRows(lines, k, m - 1);
    }
  }

  lemma FitsPrefix(rows: seq<Row>, j: nat, limits: Limits)
    requires j <= |rows| && Fits(rows, limits)
    ensures Fits(rows[..j], limits)
  {
    CellsPrefix(Counts(rows), j);
    assert Counts(rows)[..j] == Counts(rows[..j]);
  }

  lemma StatesFit(lines: seq<Line>, k: nat, n: nat, limits: Limits)
    requires k < n <= |lines| && |Rows(lines[..n])| <= limits.states && Fits(Rows(lines[..n]), limits)
    ensures StateFits(Rows(lines[..k]), lines[k], limits)
  {
    hide Fits, Rows;
    if lines[k].StateName? {
      ClosedRows(lines, k, n);
      FitsPrefix(Rows(lines[..n]), |Rows(lines[..k])|, limits);
    }
  }

  /** If every state line found room, the number of states is within the limit. */
  lemma {:induction false} StatesCountedBy(lines: seq<Line>, n: nat, limits: Limits)
    requires n <= |lines|
    requires forall k :: 0 <= k < n ==> StateFits(Rows(lines[..k]), lines[k], limits)
    ensures |Rows(lines[..n])| <= limits.states
  {
    hide Fits;
    if n > 0 {
      StatesCountedBy(lines, n - 1, limits);
      assert lines[..n][..n - 1] == lines[..n - 1];
      assert StateFits(Rows(lines[..n - 1]), lines[n - 1], limits);
    } else {
      assert lines[..0] == [];
    }
  }

  /** The preflight accepts exactly the well-formed descriptions whose states are within the
      limits and were so after every property line. */
  lemma AcceptedIff(text: Text, limits: Limits)
    ensures TextError(text, limits).None?
       <==> WellFormed(text) && WithinRunning(text, limits)
            && |TextRows(text)| <= limits.states && Fits(TextRows(text), limits)
  {
    hide LineError, LineWell, RunningFits, StateFits, Rows, FirstError, Cells;
    if text.length != 0 {
      var lines, n := text.lines, BodyLength(text.lines);
      FirstErrorIff(lines, 0, n, limits);
      forall k | 0 <= k < n
        ensures LineError(Rows(lines[..k]), lines[k], limits).None? <==>
                  && LineWell(Rows(lines[..k]), lines[k]) && RunningFits(Rows(lines[..k]), lines[k], limits)
                  && StateFits(Rows(lines[..k]), lines[k], limits)
      {
        LineErrorIff(Rows(lines[..k]), lines[k], limits);
      }
      if |TextRows(text)| <= limits.states && Fits(TextRows(text), limits) {
        forall k | 0 <= k < n ensures StateFits(Rows(lines[..k]), lines[k], limits) {
          StatesFit(lines, k, n, limits);
        }
      } else if TextError(text, limits).None? {
        StatesCountedBy(lines, n, limits);
      }
    } else {
      NoCells();
    }
  }

  /** When the preflight names the state limit there are more states, and when it names the
      frame limit there are more frames, at the end or on the way, or a longer delay list. */
  lemma LimitNamed(text: Text, limits: Limits)
    ensures TextError(text, limits) == Some(StateLimit) ==> |TextRows(text)| > limits.states
    ensures TextError(text, limits) == Some(FrameLimit) ==> !Fits(TextRows(text), limits) || !WithinRunning(text, limits)
    ensures TextError(text, limits).Some? ==> TextError(text, limits).value in {Invalid, StateLimit, FrameLimit}
  {
    hide LineError, Rows, Fits, RunningFits;
    if text.length != 0 && text.headed {
      var lines, n := text.lines, BodyLength(text.lines);
      if FirstError(lines, 0, n, limits).Some? {
        var k := FirstErrorPlace(lines, 0, n, limits);
        if k < n {
          LineNamed(lines, k, n, limits);
        }
      }
    }
  }

  /** The line at fault, or the end. */
  lemma {:induction false} FirstErrorPlace(lines: seq<Line>, i: nat, n: nat, limits: Limits) returns (k: nat)
    requires i <= n <= |lines| && FirstError(lines, i, n, limits).Some?
    ensures i <= k <= n
    ensures k == n ==> !Fits(Rows(lines[..n]), limits) && FirstError(lines, i, n, limits) == Some(FrameLimit)
    ensures k < n ==> FirstError(lines, i, n, limits) == LineError(Rows(lines[..k]), lines[k], limits)
    decreases n - i
  {
    hide LineError, Rows, Fits;
    if i == n || LineError(Rows(lines[..i]), lines[i], limits).Some? {
      k := i;
    } else {
      k := FirstErrorPlace(lines, i + 1, n, limits);
    }
  }

  lemma LineNamed(lines: seq<Line>, k: nat, n: nat, limits: Limits)
    requires k < n <= |lines| && LineError(Rows(lines[..k]), lines[k], limits).Some?
    ensures var error := LineError(Rows(lines[..k]), lines[k], limits).value;
            && error in {Invalid, StateLimit, FrameLimit}
            && (error == StateLimit ==> |Rows(lines[..n])| > limits.states)
            && (error == FrameLimit ==> !Fits(Rows(lines[..n]), limits) || !RunningFits(Rows(lines[..k]), lines[k], limits))
  {
    hide Rows, Fits;
    if lines[k].StateName? {
      ClosedRows(lines, k, n);
      if Fits(Rows(lines[..n]), limits) {
        FitsPrefix(Rows(lines[..n]), |Rows(lines[..k])|, limits);
      }
    }
  }

  lemma NoCells()
    ensures Cells(Counts([])) == 0
  {
  }

  // ------------------------------------------------------------------- the scanner

  method SetProperty(row: Row, line: Line, limits: Limits) returns (r: Result<Row, Error>)
    requires IsProperty(line)
    ensures r == if PropertyError(row, line, limits).Some? then Err(PropertyError(row, line, limits).value)
                 else Ok(SetRow(row, line))
  {
    match line {
    case DirCount(dirs) =>
      if dirs.Some? && (dirs.value == 1 || dirs.value == 4 || dirs.value == 8) {
        return Ok(row.(dirs := dirs.value));
      }
    case FrameCount(frames) =>
      if !row.hasFrames && !row.hasDelay && frames.Some? {
        return Ok(row.(frames := frames.value, hasFrames := true));
      }
    case Delays(count, finite) =>
      if !row.hasDelay && count > limits.frames {
        return Err(FrameLimit);
      }
      if !row.hasDelay && finite {
        return Ok(row.(frames := if row.hasFrames then row.frames else count, hasDelay := true));
      }
    case LoopCount(valid) =>
      if valid {
        return Ok(row);
      }
    case Flag(valid) =>
      if valid {
        return Ok(row);
      }
    }
    return Err(Invalid);
  }

  /** What the running counts stand for: all states but the open one are totalled. */
  ghost predicate Counted(rows: seq<Row>, states: nat, total: nat, open: Option<Row>) {
    && states == |rows|
    && (open.None? <==> rows == [])
    && (open.Some? ==> open.value == rows[|rows| - 1] && total == Cells(Counts(rows[..|rows| - 1])))
    && (open.None? ==> total == 0)
  }

  lemma CountedTotal(rows: seq<Row>, states: nat, total: nat, open: Option<Row>)
    requires Counted(rows, states, total, open)
    ensures Cells(Counts(rows)) == total + (if open.Some? then open.value.dirs * open.value.frames else 0)
  {
    CountsLast([], Row(0, 0, false, false));
    if rows != [] {
      assert rows == rows[..|rows| - 1] + [rows[|rows| - 1]];
      CountsLast(rows[..|rows| - 1], rows[|rows| - 1]);
    }
  }

  lemma CountedState(rows: seq<Row>, states: nat, total: nat, open: Option<Row>, sum: nat)
    requires Counted(rows, states, total, open) && sum == Cells(Counts(rows))
    ensures Counted(rows + [Row(1, 1, false, false)], states + 1, sum, Some(Row(1, 1, false, false)))
  {
    assert (rows + [Row(1, 1, false, false)])[..|rows|] == rows;
  }

  lemma CountedSet(rows: seq<Row>, states: nat, total: nat, open: Option<Row>, row: Row)
    requires Counted(rows, states, total, open) && rows != []
    ensures Counted(rows[|rows| - 1 := row], states, total, Some(row))
  {
    assert rows[|rows| - 1 := row][..|rows| - 1] == rows[..|rows| - 1];
  }

  lemma Extend(lines: seq<Line>, i: nat)
    requires i < |lines|
    ensures Rows(lines[..i + 1]) == Apply(Rows(lines[..i]), lines[i])
  {
    hide Apply;
    assert lines[..i + 1][..i] == lines[..i];
  }

  lemma BodyIs(lines: seq<Line>, i: nat)
    requires i <= |lines| && forall k :: 0 <= k < i ==> !lines[k].EndOfData?
    ensures i <= BodyLength(lines)
    ensures i == |lines| || lines[i].EndOfData? ==> i == BodyLength(lines)
    ensures i < |lines| && !lines[i].EndOfData? ==> i < BodyLength(lines)
  {
  }

  /** Finds the first error in the order of the lines, before any count is allocated. An
      accepted description has states and cells within the limits. */
  method Preflight(text: Text, limits: Limits) returns (error: Option<Error>)
    ensures error == TextError(text, limits)
    ensures error.None? <==> WellFormed(text) && WithinRunning(text, limits)
                             && |TextRows(text)| <= limits.states && Fits(TextRows(text), limits)
  {
    hide LineError, Fits, Apply, Rows, BodyLength, Counted, Cells, WellFormed, WithinRunning;
    AcceptedIff(text, limits);
    if text.length == 0 {
      return None;
    }
    if !text.headed {
      return Some(Invalid);
    }
    var lines := text.lines;
    var states: nat, total: nat, open: Option<Row>, i: nat := 0, 0, None, 0;
    Started(lines);
    BodyIs(lines, 0);
    while i < |lines| && !lines[i].EndOfData?
      invariant i <= BodyLength(lines) <= |lines| && states <= limits.states
      invariant forall k :: 0 <= k < i ==> !lines[k].EndOfData?
      invariant FirstError(lines, 0, BodyLength(lines), limits) == FirstError(lines, i, BodyLength(lines), limits)
      invariant Counted(Rows(lines[..i]), states, total, open)
    {
      ghost var rows := Rows(lines[..i]);
      BodyIs(lines, i);
      Extend(lines, i);
      error, states, total, open := Step(rows, lines[i], limits, states, total, open);
      if error.Some? {
        return;
      }
      i := i + 1;
    }
    BodyIs(lines, i);
    var fine := FinalFits(Rows(lines[..i]), limits, states, total, open);
    return if fine then None else Some(FrameLimit);
  }

  lemma Started(lines: seq<Line>)
    ensures Counted(Rows(lines[..0]), 0, 0, None)
  {
  }

  method FinalFits(ghost rows: seq<Row>, limits: Limits, ghost states: nat, total: nat, open: Option<Row>) returns (fine: bool)
    requires Counted(rows, states, total, open)
    ensures fine <==> Fits(rows, limits)
  {
    CountedTotal(rows, states, total, open);
    if open.Some? {
      var sum := BoundedFrames(open.value.dirs, open.value.frames, total, limits.frames);
      return sum.Some?;
    }
    return true;
  }

  method Step(ghost rows: seq<Row>, line: Line, limits: Limits, states0: nat, total0: nat, open0: Option<Row>)
    returns (error: Option<Error>, states: nat, total: nat, open: Option<Row>)
    requires Counted(rows, states0, total0, open0) && states0 <= limits.states && !line.EndOfData?
    ensures error == LineError(rows, line, limits)
    ensures error.None? ==> Counted(Apply(rows, line), states, total, open) && states <= limits.states
  {
    hide Counted, Cells, PropertyError;
    CountedTotal(rows, states0, total0, open0);
    OpenRow(rows, states0, total0, open0);
    error, states, total, open := None, states0, total0, open0;
    if line.StateName? {
      if open.Some? {
        var sum := BoundedFrames(open.value.dirs, open.value.frames, total, limits.frames);
        if sum.None? {
          error := Some(FrameLimit);
          return;
        }
        total := sum.value;
      }
      states := states + 1;
      if states > limits.states {
        error := Some(StateLimit);
        return;
      }
      if !line.quoted {
        error := Some(Invalid);
        return;
      }
      CountedState(rows, states0, total0, open0, total);
      open := Some(Row(1, 1, false, false));
    } else if IsProperty(line) {
      if open.None? {
        error := Some(Invalid);
        return;
      }
      var row := SetProperty(open.value, line, limits);
      if row.Err? {
        error := Some(row.error);
        return;
      }
      CountedSet(rows, states0, total0, open0, row.value);
      CountedTotal(Apply(rows, line), states, total, Some(row.value));
      var sum := BoundedFrames(row.value.dirs, row.value.frames, total, limits.frames);
      open := Some(row.value);
      if sum.None? {
        error := Some(FrameLimit);
      }
    } else if !line.Hotspot? && !(line.CellSize? && line.positive) {
      error := Some(Invalid);
    }
  }

  lemma OpenRow(rows: seq<Row>, states: nat, total: nat, open: Option<Row>)
    requires Counted(rows, states, total, open)
    ensures states == |rows| && (open.None? <==> rows == [])
    ensures open.Some? ==> open.value == rows[|rows| - 1]
    ensures open.None? ==> total == 0
  {
  }
}
