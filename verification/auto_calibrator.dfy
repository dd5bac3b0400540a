/**
  The `autoCalibrator` orchestration: the module lifecycle (`Awake`, `Start`,
  `setModule`), and the per-frame `Update`, which ticks the active module,
  then drains the serial messages of the frame, keeps only the last one,
  splits it on spaces and switches each indicator on or off by a strict
  threshold.

  Module objects are shared and mutable, so the calibrator holds their state
  in a map keyed by object identity, and the active module is an identity.
  Every hook call is appended to a trace so that the order of calls can be
  stated. The serial port is a frame input: whether the `serial` field is
  set, and the successive answers of `ReadSerialMessage` (`None` for C#
  null). The float parser is a parameter.
 */
module AutoCalibrator {
  import opened Optional
  import Strings
  import SampleLines

  /**
    The state of a concrete module object: `sampleLines_inline` with its
    phase flag, or a module that keeps every hook of the base class, which
    does nothing.
   */
  datatype ModuleKind = SampleLinesInline(horz: bool) | DefaultHooks

  /** One observable call made by the calibrator; modules are named by identity. */
  datatype Call = StartCall(id: nat) | UpdateCall(id: nat) | EndCall(id: nat) | SerialRead

  datatype Calibrator = Calibrator(
    modules: map<nat, ModuleKind>,
    active: Option<nat>,
    lines: SampleLines.Lines,
    indicators: seq<bool>,
    trace: seq<Call>)

  /** The active module, if any, is one of the calibrator's module objects. */
  predicate Valid(c: Calibrator) {
    c.active.Some? ==> c.active.value in c.modules
  }

  /** What the host supplies for one frame. */
  datatype Frame = Frame(
    serialPresent: bool,
    received: seq<Option<string>>,
    screenW: real,
    screenH: real)

  /** Indexing `indicators` past its end throws; the frame's remaining fields are skipped. */
  datatype UpdateError = IndexOutOfRange(index: nat)

  // ---------------------------------------------------------------------------
  // Hooks

  /** The `start` hook of a module in state `k`. */
  function StartHook(k: ModuleKind, lines: SampleLines.Lines): SampleLines.Lines {
    match k
    case SampleLinesInline(horz) => SampleLines.Start(SampleLines.Sweep(lines, horz)).lines
    case DefaultHooks => lines
  }

  /** The `update` hook of a module in state `k`: its new state and the new line positions. */
  function UpdateHook(k: ModuleKind, lines: SampleLines.Lines, screenW: real, screenH: real)
    : (ModuleKind, SampleLines.Lines)
  {
    match k
    case SampleLinesInline(horz) =>
      var s := SampleLines.Update(SampleLines.Sweep(lines, horz), screenW, screenH);
      (SampleLinesInline(s.horz), s.lines)
    case DefaultHooks => (k, lines)
  }

  /** A module that keeps the base class's hooks changes nothing when started or updated. */
  lemma DefaultHooksDoNothing(lines: SampleLines.Lines, screenW: real, screenH: real)
    ensures StartHook(DefaultHooks, lines) == lines
    ensures UpdateHook(DefaultHooks, lines, screenW, screenH) == (DefaultHooks, lines)
  {
  }

  // The `end` hook of both modules is empty: ending a module only records the call.

  // ---------------------------------------------------------------------------
  // setModule

  /**
    `setModule(m)`, with `None` for null. A C# reference always denotes a
    live object, hence the requirement that `m` is one of the modules.
   */
  function SetModule(c: Calibrator, m: Option<nat>): Calibrator
    requires m.Some? ==> m.value in c.modules
  {
    var ended :=
      if c.active.Some? then c.(trace := c.trace + [EndCall(c.active.value)]) else c;
    var installed := ended.(active := m);
    if m.Some? then
      installed.(lines := StartHook(c.modules[m.value], installed.lines),
                 trace := installed.trace + [StartCall(m.value)])
    else
      installed
  }

  /**
    `setModule(m)` ends the previous module, if any, before starting `m`, if
    any, each exactly once; the module installed is `m`. No module's state
    changes, so a module installed again resumes the state it had, and the
    indicators are untouched.
   */
  lemma SetModuleLifecycle(c: Calibrator, m: Option<nat>)
    requires m.Some? ==> m.value in c.modules
    ensures var r := SetModule(c, m);
      && Valid(r)
      && r.active == m
      && r.modules == c.modules
      && r.indicators == c.indicators
      && r.trace[..|c.trace|] == c.trace
      && r.trace[|c.trace|..]
         == (if c.active.Some? then [EndCall(c.active.value)] else [])
          + (if m.Some? then [StartCall(m.value)] else [])
  {
  }

  /** `setModule(null)` ends the old module, starts nothing, leaves the lines alone and no module active. */
  lemma SetModuleNullDeactivates(c: Calibrator)
    requires c.active.Some?
    ensures var r := SetModule(c, None);
      && r.active.None?
      && r.lines == c.lines
      && r.trace == c.trace + [EndCall(c.active.value)]
  {
  }

  /** Installing a `sampleLines_inline` object puts both lines at -lineThickness and keeps its phase. */
  lemma SetModuleStartsSweep(c: Calibrator, id: nat)
    requires id in c.modules && c.modules[id].SampleLinesInline?
    ensures var r := SetModule(c, Some(id));
      && r.lines == SampleLines.Lines(-SampleLines.LineThickness, -SampleLines.LineThickness)
      && r.active == Some(id)
      && r.modules[id] == c.modules[id]
  {
  }

  // ---------------------------------------------------------------------------
  // Awake and Start

  /** The identity of the `sampleLines_inline` object that `Awake` creates. */
  const InlineId: nat := 0

  /**
    `Awake`: creates the `inline` module, whose phase starts horizontal; no
    module is active yet. The line positions and the indicators come from
    the scene.
   */
  function Awake(lines: SampleLines.Lines, indicators: seq<bool>): Calibrator {
    Calibrator(map[InlineId := SampleLinesInline(true)], None, lines, indicators, [])
  }

  /** `Start`: installs the `inline` object, the only `setModule` call the calibrator makes. */
  function Start(c: Calibrator): Calibrator
    requires InlineId in c.modules
  {
    SetModule(c, Some(InlineId))
  }

  /**
    After `Awake` and `Start`, `inline` is active in its horizontal phase,
    both lines are at -lineThickness, and its `start` is the only call made.
   */
  lemma AwakeThenStart(lines: SampleLines.Lines, indicators: seq<bool>)
    ensures var c := Start(Awake(lines, indicators));
      && Valid(c)
      && c.active == Some(InlineId)
      && c.modules[InlineId] == SampleLinesInline(true)
      && SampleLines.Sweep(c.lines, true) == SampleLines.Start(SampleLines.NewModule(lines))
      && c.indicators == indicators
      && c.trace == [StartCall(InlineId)]
  {
  }

  // ---------------------------------------------------------------------------
  // Update: the module tick

  /** The first part of `Update`: call the active module's `update`, if there is one. */
  function Tick(c: Calibrator, screenW: real, screenH: real): Calibrator
    requires Valid(c)
  {
    match c.active
    case None => c
    case Some(id) =>
      var (k', lines') := UpdateHook(c.modules[id], c.lines, screenW, screenH);
      c.(modules := c.modules[id := k'], lines := lines', trace := c.trace + [UpdateCall(id)])
  }

  /**
    The tick calls `update` exactly once when a module is set and never
    otherwise; the same module stays active, no other module's state changes
    and the indicators are untouched.
   */
  lemma TickCallsUpdateOnce(c: Calibrator, screenW: real, screenH: real)
    requires Valid(c)
    ensures var t := Tick(c, screenW, screenH);
      && Valid(t)
      && t.indicators == c.indicators
      && t.active == c.active
      && t.modules.Keys == c.modules.Keys
      && (forall j :: j in c.modules && c.active != Some(j) ==> t.modules[j] == c.modules[j])
      && (c.active.Some? ==> t.trace == c.trace + [UpdateCall(c.active.value)])
      && (c.active.None? ==> t == c)
  {
  }

  /** With a `sampleLines_inline` object active, a tick moves the lines and its phase exactly as one sweep update does. */
  lemma TickRunsSweep(c: Calibrator, screenW: real, screenH: real)
    requires Valid(c) && c.active.Some? && c.modules[c.active.value].SampleLinesInline?
    ensures var t := Tick(c, screenW, screenH);
      var s := SampleLines.Update(SampleLines.Sweep(c.lines, c.modules[c.active.value].horz), screenW, screenH);
      t.lines == s.lines && t.modules[c.active.value] == SampleLinesInline(s.horz)
  {
  }

  /** `n` ticks with unchanged screen dimensions. */
  function TickN(c: Calibrator, screenW: real, screenH: real, n: nat): (r: Calibrator)
    requires Valid(c)
    ensures Valid(r) && r.active == c.active && r.modules.Keys == c.modules.Keys
    decreases n
  {
    if n == 0 then c else TickN(Tick(c, screenW, screenH), screenW, screenH, n - 1)
  }

  /**
    While a `sampleLines_inline` object stays active, `n` frames of ticks move
    the lines and its phase exactly as `n` sweep updates do.
   */
  lemma {:induction false} TicksRunSweep(c: Calibrator, screenW: real, screenH: real, n: nat)
    requires Valid(c) && c.active.Some? && c.modules[c.active.value].SampleLinesInline?
    ensures var r := TickN(c, screenW, screenH, n);
      var s := SampleLines.UpdateN(SampleLines.Sweep(c.lines, c.modules[c.active.value].horz), screenW, screenH, n);
      r.lines == s.lines && r.modules[c.active.value] == SampleLinesInline(s.horz)
    decreases n
  {
    if n > 0 {
      TickRunsSweep(c, screenW, screenH);
      TicksRunSweep(Tick(c, screenW, screenH), screenW, screenH, n - 1);
    }
  }

  /**
    From `Awake` and `Start`, the lines after `n` frames are those of `n`
    sweep updates from `start` on a fresh module, so every property of the
    sweep holds of the calibrator's lines.
   */
  lemma StartedCalibratorSweeps(lines: SampleLines.Lines, indicators: seq<bool>, screenW: real, screenH: real, n: nat)
    ensures var r := TickN(Start(Awake(lines, indicators)), screenW, screenH, n);
      var s := SampleLines.UpdateN(SampleLines.Start(SampleLines.NewModule(lines)), screenW, screenH, n);
      r.lines == s.lines && r.modules[InlineId] == SampleLinesInline(s.horz)
  {
    AwakeThenStart(lines, indicators);
    TicksRunSweep(Start(Awake(lines, indicators)), screenW, screenH, n);
  }


  // ---------------------------------------------------------------------------
  // Update: the serial messages of one frame

  /** The answer to the `i`-th `ReadSerialMessage` call of the frame; null once the queue is drained. */
  function ReadAt(received: seq<Option<string>>, i: nat): Option<string> {
    if i < |received| then received[i] else None
  }

  /** Number of messages read before the first null: the length of the non-null prefix. */
  function MessageRun(received: seq<Option<string>>): (k: nat)
    ensures k <= |received|
    ensures forall i :: 0 <= i < k ==> received[i].Some?
    ensures k < |received| ==> received[k].None?
    decreases |received|
  {
    if |received| == 0 || received[0].None? then 0 else 1 + MessageRun(received[1..])
  }

  /** The message `Update` acts on: the last one before the first null, if the first read is not null. */
  function LatestMessage(received: seq<Option<string>>): Option<string> {
    var k := MessageRun(received);
    if k == 0 then None else received[k - 1]
  }

  /**
    The read loop of `Update`: no message when the first read is null;
    otherwise read until a null arrives and keep the last non-null message.
    Returns that message and the number of `ReadSerialMessage` calls made,
    which is one more than the number of messages consumed.
   */
  method ReadLatestMessage(received: seq<Option<string>>) returns (latest: Option<string>, calls: nat)
    ensures latest.None? <==> (|received| == 0 || received[0].None?)
    ensures latest.Some? ==> latest == received[MessageRun(received) - 1]
    ensures calls == MessageRun(received) + 1
    ensures forall i :: 0 <= i < calls - 1 ==> received[i].Some?
    ensures calls - 1 < |received| ==> received[calls - 1].None?
  {
    var data := ReadAt(received, 0);
    calls := 1;
    if data.None? {
      return None, calls;
    }
    var last := data;
    while data.Some?
      invariant 1 <= calls <= |received| + 1
      invariant data == ReadAt(received, calls - 1)
      invariant forall i :: 0 <= i < calls - 1 ==> received[i].Some?
      invariant last.Some?
      invariant data.Some? ==> last == data
      invariant data.None? ==> 2 <= calls && last == received[calls - 2]
      decreases |received| + 1 - calls
    {
      data := ReadAt(received, calls);
      calls := calls + 1;
      if data.Some? {
        last := data;
      }
    }
    latest := last;
  }

  /** The value of one field: the parser's result, or 0 when it fails. */
  function FieldValue(parse: string -> Option<real>, field: string): real {
    parse(field).GetOr(0.0)
  }

  /**
    The indicator loop of `Update`: field `i` switches indicator `i` on
    exactly when its value is strictly above `threshold`. With more fields
    than indicators the loop throws at the first index past the end, after
    all the indicators have been set.
   */
  method ApplyFields(
    indicators: seq<bool>, fields: seq<string>, threshold: real, parse: string -> Option<real>)
    returns (r: seq<bool>, err: Option<UpdateError>)
    ensures |r| == |indicators|
    ensures err.Some? <==> |fields| > |indicators|
    ensures err.Some? ==> err.value == IndexOutOfRange(|indicators|)
    ensures forall i :: 0 <= i < |r| && i < |fields| ==>
      (r[i] <==> FieldValue(parse, fields[i]) > threshold)
    ensures forall i :: |fields| <= i < |r| ==> r[i] == indicators[i]
  {
    r := indicators;
    var i := 0;
    while i < |fields|
      invariant 0 <= i <= |fields|
      invariant i <= |r| == |indicators|
      invariant forall j :: 0 <= j < i ==> (r[j] <==> FieldValue(parse, fields[j]) > threshold)
      invariant forall j :: i <= j < |r| ==> r[j] == indicators[j]
    {
      if i >= |r| {
        return r, Some(IndexOutOfRange(i));
      }
      var v := FieldValue(parse, fields[i]);
      if v > threshold {
        r := r[i := true];
      } else {
        r := r[i := false];
      }
      i := i + 1;
    }
    err := None;
  }

  /**
    One frame of `Update`. The active module's `update` is called exactly
    once, before any serial read, and only when a module is set. Without a
    serial port, or when the first read is null, no indicator changes.
    Otherwise only the last message before the first null is used: its
    space-separated fields set the indicators by the strict threshold, and
    a message with more fields than indicators ends in an out-of-range error.
   */
  method Update(c: Calibrator, frame: Frame, threshold: real, parse: string -> Option<real>)
    returns (r: Calibrator, err: Option<UpdateError>)
    requires Valid(c)
    ensures Valid(r)
    ensures var t := Tick(c, frame.screenW, frame.screenH);
      r.active == t.active && r.modules == t.modules && r.lines == t.lines
    ensures |c.trace| <= |r.trace| && r.trace[..|c.trace|] == c.trace
    ensures c.active.Some? ==>
      |r.trace| > |c.trace| && r.trace[|c.trace|] == UpdateCall(c.active.value)
    ensures var first := if c.active.Some? then |c.trace| + 1 else |c.trace|;
      first <= |r.trace| && forall j :: first <= j < |r.trace| ==> r.trace[j] == SerialRead
    ensures |r.trace| - |Tick(c, frame.screenW, frame.screenH).trace|
            == (if frame.serialPresent then MessageRun(frame.received) + 1 else 0)
    ensures |r.indicators| == |c.indicators|
    ensures !frame.serialPresent || frame.received == [] || frame.received[0].None? ==>
      r.indicators == c.indicators && err.None?
    ensures frame.serialPresent && LatestMessage(frame.received).Some? ==>
      var fields := Strings.Split(LatestMessage(frame.received).value, ' ');
      && (err.Some? <==> |fields| > |c.indicators|)
      && (forall i :: 0 <= i < |c.indicators| && i < |fields| ==>
            (r.indicators[i] <==> FieldValue(parse, fields[i]) > threshold))
      && (forall i :: |fields| <= i < |c.indicators| ==> r.indicators[i] == c.indicators[i])
  {
    var t := Tick(c, frame.screenW, frame.screenH);
    assert t.trace[..|c.trace|] == c.trace;
    if !frame.serialPresent {
      return t, None;
    }
    var latest, calls := ReadLatestMessage(frame.received);
    r := t.(trace := t.trace + seq(calls, _ => SerialRead));
    if latest.None? {
      return r, None;
    }
    var fields := Strings.Split(latest.value, ' ');
    var indicators;
    indicators, err := ApplyFields(t.indicators, fields, threshold, parse);
    r := r.(indicators := indicators);
  }
}
