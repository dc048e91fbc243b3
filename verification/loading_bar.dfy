/** The bouncing progress bar of src/LoadingWidget.cpp: a line of
    `lineWidth` pixels that moves by `velocity` on every timer tick and turns
    round at either edge of the widget. */
module LoadingBar {

  /** A C++ `int` argument. */
  type Int32 = x: int | -0x8000_0000 <= x < 0x8000_0000

  /** The widget's animation fields. `position` and `velocity` are qreal in
      the widget, but they start whole and only ever receive whole values, so
      they are integers here. `running` stands for the timer being active. */
  datatype Bar = Bar(durationMS: int, lineWidth: int, position: int, velocity: int, running: bool)

  const MinDurationMS := 100
  const MinLineWidth := 10
  /** The speed `start` sets, in pixels per tick. */
  const StartSpeed := 5

  /** What the setters guarantee about the configuration fields. */
  ghost predicate Valid(b: Bar) {
    b.durationMS >= MinDurationMS && b.lineWidth >= MinLineWidth
  }

  function Abs(x: int): nat {
    if x < 0 then -x else x
  }

  /** The member initialisers. */
  function Init(): (b: Bar)
    ensures Valid(b)
    ensures b.durationMS == 2000 && b.lineWidth == 40
    ensures b.position == 0 && b.velocity == 1 && !b.running
  {
    Bar(2000, 40, 0, 1, false)
  }

  /** setDuration: values below the minimum are raised to it. */
  function SetDuration(b: Bar, milliseconds: Int32): (r: Bar)
    ensures r.durationMS >= MinDurationMS && r.durationMS >= milliseconds
    ensures r.durationMS == MinDurationMS || r.durationMS == milliseconds
    ensures r == b.(durationMS := r.durationMS)
  {
    b.(durationMS := if milliseconds < MinDurationMS then MinDurationMS else milliseconds)
  }

  function Duration(b: Bar): int {
    b.durationMS
  }

  /** duration() gives back exactly what setDuration was handed, unless that
      was below the minimum. */
  lemma DurationRoundTrip(b: Bar, milliseconds: Int32)
    ensures Duration(SetDuration(b, milliseconds)) == milliseconds <==> milliseconds >= MinDurationMS
    ensures Duration(SetDuration(b, milliseconds)) >= MinDurationMS
  {
  }

  /** setLineWidth: values below the minimum are raised to it. */
  function SetLineWidth(b: Bar, width: Int32): (r: Bar)
    ensures r.lineWidth >= MinLineWidth && r.lineWidth >= width
    ensures r.lineWidth == MinLineWidth || r.lineWidth == width
    ensures r == b.(lineWidth := r.lineWidth)
  {
    b.(lineWidth := if width < MinLineWidth then MinLineWidth else width)
  }

  /** Both setters keep the configuration valid. */
  lemma SettersKeepValid(b: Bar, milliseconds: Int32, width: Int32)
    requires Valid(b)
    ensures Valid(SetDuration(b, milliseconds))
    ensures Valid(SetLineWidth(b, width))
  {
  }

  /** start: the bar restarts from the left edge, moving right. */
  function Start(b: Bar): (r: Bar)
    ensures r.running && r.position == 0 && r.velocity == StartSpeed
    ensures r.durationMS == b.durationMS && r.lineWidth == b.lineWidth
  {
    b.(running := true, position := 0, velocity := StartSpeed)
  }

  /** stop: the timer stops; the bar keeps its place. */
  function Stop(b: Bar): (r: Bar)
    ensures !r.running
    ensures r == b.(running := false)
  {
    b.(running := false)
  }

  /** The right-most position the bar's left end may take in a widget `width` wide. */
  function MaxPosition(b: Bar, width: int): int {
    width - b.lineWidth
  }

  /** The bar is at or has passed the edge it is moving toward after adding `velocity`. */
  predicate ReachesEdge(b: Bar, width: int) {
    if b.velocity > 0 then b.position + b.velocity >= MaxPosition(b, width)
    else b.position + b.velocity <= 0
  }

  /** updatePosition: one tick of the animation in a widget `width` pixels wide. */
  function UpdatePosition(b: Bar, width: int): (r: Bar)
    ensures Abs(r.velocity) == Abs(b.velocity)
    ensures ReachesEdge(b, width) ==> r.velocity == -b.velocity
    ensures ReachesEdge(b, width) && b.velocity > 0 ==> r.position == MaxPosition(b, width)
    ensures ReachesEdge(b, width) && b.velocity <= 0 ==> r.position == 0
    ensures !ReachesEdge(b, width) ==> r.position == b.position + b.velocity && r.velocity == b.velocity
    ensures 0 <= MaxPosition(b, width) && 0 <= b.position <= MaxPosition(b, width) ==>
              0 <= r.position <= MaxPosition(b, width)
    ensures r.durationMS == b.durationMS && r.lineWidth == b.lineWidth && r.running == b.running
  {
    var maxPosition := width - b.lineWidth;
    var position := b.position + b.velocity;
    if b.velocity > 0 then
      if position >= maxPosition then b.(position := maxPosition, velocity := -b.velocity)
      else b.(position := position)
    else
      if position <= 0 then b.(position := 0, velocity := -b.velocity)
      else b.(position := position)
  }

  /** The bar after `n` timer ticks in a widget of fixed width. */
  function Ticks(b: Bar, width: int, n: nat): Bar
    decreases n
  {
    if n == 0 then b else Ticks(UpdatePosition(b, width), width, n - 1)
  }

  /** Once inside the track the bar never leaves it, however many ticks pass. */
  lemma {:induction false} TicksStayInTrack(b: Bar, width: int, n: nat)
    requires 0 <= MaxPosition(b, width) && 0 <= b.position <= MaxPosition(b, width)
    ensures 0 <= Ticks(b, width, n).position <= MaxPosition(b, width)
    ensures Ticks(b, width, n).lineWidth == b.lineWidth
    decreases n
  {
    if n > 0 {
      TicksStayInTrack(UpdatePosition(b, width), width, n - 1);
    }
  }

  /** Ticks only ever turn the bar round: its speed never changes. */
  lemma {:induction false} TicksKeepSpeed(b: Bar, width: int, n: nat)
    ensures Abs(Ticks(b, width, n).velocity) == Abs(b.velocity)
    decreases n
  {
    if n > 0 {
      TicksKeepSpeed(UpdatePosition(b, width), width, n - 1);
    }
  }

  /** After start the bar always moves five pixels per tick, one way or the other. */
  lemma SpeedAfterStart(b: Bar, width: int, n: nat)
    ensures Abs(Ticks(Start(b), width, n).velocity) == StartSpeed
  {
    TicksKeepSpeed(Start(b), width, n);
  }

  /** Moving right inside the track, the bar arrives exactly at the right edge,
      turned round; every tick but the last covers a full stride of the distance. */
  lemma {:induction false} ArrivesAtRightEdge(b: Bar, width: int) returns (n: nat)
    requires b.velocity > 0
    requires 0 <= b.position <= MaxPosition(b, width)
    ensures n >= 1 && (n - 1) * b.velocity <= MaxPosition(b, width) - b.position
    ensures Ticks(b, width, n).position == MaxPosition(b, width)
    ensures Ticks(b, width, n).velocity == -b.velocity
    decreases MaxPosition(b, width) - b.position
  {
    var next := UpdatePosition(b, width);
    if ReachesEdge(b, width) {
      n := 1;
      assert Ticks(next, width, 0) == next;
    } else {
      var m := ArrivesAtRightEdge(next, width);
      n := m + 1;
      assert Ticks(b, width, n) == Ticks(next, width, m);
      assert (n - 1) * b.velocity == (m - 1) * b.velocity + b.velocity;
    }
  }

  /** Moving left inside the track, the bar arrives exactly at the left edge,
      turned round; every tick but the last covers a full stride of the distance. */
  lemma {:induction false} ArrivesAtLeftEdge(b: Bar, width: int) returns (n: nat)
    requires b.velocity < 0
    requires 0 <= b.position
    ensures n >= 1 && (n - 1) * -b.velocity <= b.position
    ensures Ticks(b, width, n).position == 0
    ensures Ticks(b, width, n).velocity == -b.velocity
    decreases b.position
  {
    var next := UpdatePosition(b, width);
    if ReachesEdge(b, width) {
      n := 1;
      assert Ticks(next, width, 0) == next;
    } else {
      var m := ArrivesAtLeftEdge(next, width);
      n := m + 1;
      assert Ticks(b, width, n) == Ticks(next, width, m);
      assert (n - 1) * -b.velocity == (m - 1) * -b.velocity + -b.velocity;
    }
  }
}
