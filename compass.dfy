/** The mutable state behind the Qibla compass: the window of recent readings and
    the two heading refs that the orientation handler updates, and the shown
    compass heading with the time of its last update that the animation step moves. */
module Compass {
  import opened Wrappers
  import opened Heading

  const WindowSize: nat := 5           // readings kept for the moving average
  const SettledLength: nat := 3        // below this many readings every average is taken
  const JitterThreshold: real := 1.0   // degrees an average must move to be taken
  const FrameInterval: real := 33.0    // milliseconds between animation updates
  const AnimationFactor: real := 0.15  // smoothing factor of each animation update

  /** The two heading sources a device orientation event may carry. */
  datatype OrientationEvent = OrientationEvent(webkitCompassHeading: Option<real>, alpha: Option<real>)

  /** The heading an event yields: the compass heading when defined, otherwise
      `360 - alpha`, and none when the event has neither. */
  function HeadingOf(e: OrientationEvent): (h: Option<real>)
    ensures e.webkitCompassHeading.Some? ==> h == e.webkitCompassHeading
    ensures e.webkitCompassHeading.None? && e.alpha.Some? ==> h == Some(FullTurn - e.alpha.value)
    ensures h.None? <==> e.webkitCompassHeading.None? && e.alpha.None?
  {
    match e.webkitCompassHeading
    case Some(w) => Some(w)
    case None =>
      match e.alpha
      case Some(a) => Some(FullTurn - a)
      case None => None
  }

  /** The sensor reports values in [0, 360). */
  predicate SensorInRange(e: OrientationEvent)
  {
    (e.webkitCompassHeading.Some? ==> IsBearing(e.webkitCompassHeading.value)) &&
    (e.alpha.Some? ==> IsBearing(e.alpha.value))
  }

  lemma HeadingOfInRange(e: OrientationEvent)
    requires SensorInRange(e) && HeadingOf(e).Some?
    ensures IsReading(HeadingOf(e).value)
  {
  }

  /** `push(heading)` followed by one `shift()` when the window has grown past five. */
  function Pushed(history: seq<real>, h: real): (w: seq<real>)
    ensures |history| < WindowSize ==> w == history + [h]
    ensures |history| >= WindowSize ==> w == history[1..] + [h]
  {
    var p := history + [h];
    if |p| > WindowSize then p[1..] else p
  }

  /** The last five readings of a stream, oldest first. */
  function Recent(readings: seq<real>): (w: seq<real>)
    ensures |w| <= WindowSize
    ensures |w| == if |readings| < WindowSize then |readings| else WindowSize
    ensures w == readings[|readings| - |w|..]
  {
    if |readings| <= WindowSize then readings else readings[|readings| - WindowSize..]
  }

  /** Pushing one reading onto the window of a stream gives the window of the
      longer stream: the oldest reading is the one dropped. */
  lemma PushedKeepsRecent(readings: seq<real>, h: real)
    ensures Pushed(Recent(readings), h) == Recent(readings + [h])
  {
    var s := readings + [h];
    if |readings| >= WindowSize {
      assert Recent(readings)[1..] + [h] == s[|s| - WindowSize..];
    }
  }

  /** Every angle of a window lies in [0, 360]. */
  predicate AllReadings(w: seq<real>)
  {
    forall i :: 0 <= i < |w| ==> IsReading(w[i])
  }

  /** Pushing an in-range reading keeps the window in range, and then its mean
      is in range too. */
  lemma PushedInRange(history: seq<real>, h: real)
    requires AllReadings(history) && IsReading(h)
    ensures AllReadings(Pushed(history, h))
    ensures IsReading(Mean(Pushed(history, h)))
  {
    var w := Pushed(history, h);
    assert AllReadings(w);
    MeanWithin(w, 0.0, FullTurn);
  }

  /** The jitter gate of line 147: take an average that moved by more than one
      degree around the circle, or any average while the window is short. */
  predicate TakesAverage(average: real, latest: real, windowLength: nat)
  {
    NormalizedDiff(average, latest) > JitterThreshold || windowLength < SettledLength
  }

  /** The gate rejects an average exactly when the window holds at least three
      readings and the average lies within one degree of the latest heading, either
      directly or across north. */
  lemma GateRejectsSmallSettledMoves(average: real, latest: real, windowLength: nat)
    requires IsReading(average) && IsReading(latest)
    ensures !TakesAverage(average, latest, windowLength) <==>
              windowLength >= SettledLength &&
              (Abs(average - latest) <= JitterThreshold ||
               Abs(average - latest) >= FullTurn - JitterThreshold)
  {
  }

  class QiblaCompass {
    var history: seq<real>      // headingHistory.current
    var latestHeading: real     // latestHeading.current
    var smoothedHeading: real   // smoothedHeading.current
    var compassHeading: real    // the compassHeading state the dial shows
    var lastUpdateTime: real    // lastUpdateTime.current, in milliseconds
    ghost var readings: seq<real>  // every heading the handler has pushed, in arrival order

    /** The window holds the last five readings, and the two refs are always
        assigned together. */
    ghost predicate Valid()
      reads this
    {
      history == Recent(readings) && latestHeading == smoothedHeading
    }

    /** Every stored angle is in range: readings and refs in [0, 360], the shown
        heading in [0, 360). */
    ghost predicate InRange()
      reads this
    {
      AllReadings(history) && IsReading(latestHeading) && IsReading(smoothedHeading) && IsBearing(compassHeading)
    }

    /** The refs and the state all start at 0 with an empty window. */
    constructor ()
      ensures Valid() && InRange()
      ensures history == [] && readings == []
      ensures latestHeading == 0.0 && smoothedHeading == 0.0
      ensures compassHeading == 0.0 && lastUpdateTime == 0.0
    {
      history := [];
      latestHeading := 0.0;
      smoothedHeading := 0.0;
      compassHeading := 0.0;
      lastUpdateTime := 0.0;
      readings := [];
    }

    /** handleOrientation: an event without a heading changes nothing; otherwise the
        heading enters the window, and the window's mean becomes both refs when the
        jitter gate lets it through. */
    method HandleOrientation(e: OrientationEvent)
      requires Valid()
      modifies this
      ensures Valid()
      ensures compassHeading == old(compassHeading) && lastUpdateTime == old(lastUpdateTime)
      ensures HeadingOf(e).None? ==>
                history == old(history) && readings == old(readings) &&
                latestHeading == old(latestHeading) && smoothedHeading == old(smoothedHeading)
      ensures HeadingOf(e).Some? ==>
                readings == old(readings) + [HeadingOf(e).value] &&
                history == Pushed(old(history), HeadingOf(e).value)
      ensures HeadingOf(e).Some? && TakesAverage(Mean(history), old(latestHeading), |history|) ==>
                latestHeading == Mean(history) && smoothedHeading == Mean(history)
      ensures HeadingOf(e).Some? && !TakesAverage(Mean(history), old(latestHeading), |history|) ==>
                latestHeading == old(latestHeading) && smoothedHeading == old(smoothedHeading)
      ensures old(InRange()) && SensorInRange(e) ==> InRange()
    {
      var heading := HeadingOf(e);
      if heading.None? {
        return;
      }
      var h := heading.value;
      PushedKeepsRecent(readings, h);
      if InRange() && SensorInRange(e) {
        HeadingOfInRange(e);
        PushedInRange(history, h);
      }
      history := Pushed(history, h);
      readings := readings + [h];
      var average := MovingAverage(history);
      if TakesAverage(average, latestHeading, |history|) {
        latestHeading := average;
        smoothedHeading := average;
      }
    }

    /** One animation frame: more than 33 ms after the last update the shown heading
        takes one smoothing step towards the smoothed heading and the frame time is
        recorded; otherwise nothing changes. */
    method AnimateStep(timestamp: real)
      modifies this
      ensures history == old(history) && readings == old(readings)
      ensures latestHeading == old(latestHeading) && smoothedHeading == old(smoothedHeading)
      ensures timestamp - old(lastUpdateTime) > FrameInterval ==>
                compassHeading == SmoothHeading(old(compassHeading), smoothedHeading, AnimationFactor) &&
                lastUpdateTime == timestamp
      ensures timestamp - old(lastUpdateTime) <= FrameInterval ==>
                compassHeading == old(compassHeading) && lastUpdateTime == old(lastUpdateTime)
      ensures old(Valid()) ==> Valid()
      ensures old(InRange()) ==> InRange()
    {
      if timestamp - lastUpdateTime > FrameInterval {
        compassHeading := SmoothHeading(compassHeading, smoothedHeading, AnimationFactor);
        lastUpdateTime := timestamp;
      }
    }
  }

  /** Two frames 10 ms apart give one update; 40 ms apart, two. */
  method FrameThrottleExample()
  {
    var c := new QiblaCompass();
    c.smoothedHeading, c.latestHeading := 90.0, 90.0;
    c.AnimateStep(100.0);
    assert c.lastUpdateTime == 100.0;
    var shown := c.compassHeading;
    c.AnimateStep(110.0);
    assert c.lastUpdateTime == 100.0 && c.compassHeading == shown;
    c.AnimateStep(140.0);
    assert c.lastUpdateTime == 140.0;
  }
}
