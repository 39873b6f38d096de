/** `won::io::Input`: the mouse button flags sampled each frame and the
    press/release latch. Keyboard state comes from the operating system, so
    whether a key's virtual code reads as down is a parameter, as is the
    build platform and the double-click timing test. */
module Input {
  datatype Button = MouseLeft | MouseRight | MouseMiddle | Key(code: nat)

  predicate IsMouse(b: Button) {
    b.MouseLeft? || b.MouseRight? || b.MouseMiddle?
  }

  /** The module's statics: the sampled mouse flags, the latched buttons
      (`inputs`) and the double-click flag. */
  datatype InputState = InputState(
    left: bool, middle: bool, right: bool,
    latched: set<Button>,
    doubleClick: bool)

  const Initial: InputState := InputState(false, false, false, {}, false)

  /** `IsDown`: a mouse button reads its stored flag; any other button asks
      the operating system (`osDown`: the key is down or toggled), which
      only a Windows build can do. */
  function IsDown(s: InputState, b: Button, windows: bool, osDown: bool): (r: bool)
    ensures b == MouseLeft ==> (r <==> s.left)
    ensures b == MouseRight ==> (r <==> s.right)
    ensures b == MouseMiddle ==> (r <==> s.middle)
    ensures !IsMouse(b) ==> (r <==> windows && osDown)
  {
    match b
    case MouseLeft => s.left
    case MouseRight => s.right
    case MouseMiddle => s.middle
    case Key(_) => windows && osDown
  }

  /** `IsPressed`, with `down` the answer of `IsDown`: true only on the
      call that first sees the button down, which latches it. */
  function IsPressed(latched: set<Button>, b: Button, down: bool): (r: (bool, set<Button>))
    ensures !down ==> r == (false, latched)
    ensures r.0 <==> down && b !in latched
    ensures r.1 == (if down then latched + {b} else latched)
  {
    if !down then (false, latched)
    else if b !in latched then (true, latched + {b})
    else (false, latched)
  }

  /** `IsReleased`, with `down` the answer of `IsDown`: a latched button is
      unlatched and reported, whatever its state; an unlatched one is not
      reported, but latched if it is down. */
  function IsReleased(latched: set<Button>, b: Button, down: bool): (r: (bool, set<Button>))
    ensures r.0 <==> b in latched
    ensures b in latched ==> r.1 == latched - {b}
    ensures b !in latched ==> r.1 == (if down then latched + {b} else latched)
  {
    if b !in latched then (false, if down then latched + {b} else latched)
    else (true, latched - {b})
  }

  /** The latch of one button is the only thing either call touches. */
  lemma LatchIsPerButton(latched: set<Button>, b: Button, down: bool, other: Button)
    requires other != b
    ensures other in IsPressed(latched, b, down).1 <==> other in latched
    ensures other in IsReleased(latched, b, down).1 <==> other in latched
  {
  }

  /** Asking `IsPressed` on each frame while the button is held down: the
      answers, frame by frame. */
  function PressedRun(latched: set<Button>, b: Button, frames: nat): (r: seq<bool>)
    ensures |r| == frames
    decreases frames
  {
    if frames == 0 then []
    else
      var (p, latched') := IsPressed(latched, b, true);
      [p] + PressedRun(latched', b, frames - 1)
  }

  /** Holding a button reports one press, on the first frame only, however
      long it is held. */
  lemma {:induction false} HeldReportsOnce(latched: set<Button>, b: Button, frames: nat)
    requires b !in latched && frames > 0
    ensures var r := PressedRun(latched, b, frames);
      r[0] && forall k :: 1 <= k < frames ==> !r[k]
  {
    var latched' := latched + {b};
    assert PressedRun(latched, b, frames) == [true] + PressedRun(latched', b, frames - 1);
    StaysLatched(latched', b, frames - 1);
  }

  lemma {:induction false} StaysLatched(latched: set<Button>, b: Button, frames: nat)
    requires b in latched
    ensures forall k :: 0 <= k < frames ==> !PressedRun(latched, b, frames)[k]
    decreases frames
  {
    if frames > 0 {
      assert IsPressed(latched, b, true) == (false, latched);
      StaysLatched(latched, b, frames - 1);
      var r := PressedRun(latched, b, frames);
      assert r == [false] + PressedRun(latched, b, frames - 1);
      forall k | 1 <= k < frames
        ensures !r[k]
      {
        assert r[k] == PressedRun(latched, b, frames - 1)[k - 1];
      }
    }
  }

  /** A press followed by a release reports each once and leaves the button
      unlatched, so the next press is reported again. */
  lemma PressReleaseCycle(latched: set<Button>, b: Button, downAtRelease: bool)
    requires b !in latched
    ensures var (p, l1) := IsPressed(latched, b, true);
      var (q, l2) := IsReleased(l1, b, downAtRelease);
      p && q && l2 == latched && IsPressed(l2, b, true).0
  {
    assert latched + {b} - {b} == latched;
  }

  /** `Update`: sample the three mouse flags, clear the double-click flag,
      then set it again only if this frame newly presses the left button and
      `quickAndNear` holds. That flag stands for the source's two tests: the
      double-click timer reads under the double-click interval (0.5 s by
      default, settable through `SetDoubleClickInterval`), and the cursor
      lies within 5 units of the previous left click. The timer is started
      once and never reset, so the first test really asks whether the click
      falls within that interval of start-up; only the previous position is
      refreshed per click. */
  function Update(s: InputState, left: bool, middle: bool, right: bool, quickAndNear: bool): (r: InputState)
    ensures r.left == left && r.middle == middle && r.right == right
    ensures r.latched == IsPressed(s.latched, MouseLeft, left).1
    ensures r.doubleClick <==> left && MouseLeft !in s.latched && quickAndNear
    // a double click never outlives the frame that saw it
    ensures !IsPressed(s.latched, MouseLeft, left).0 ==> !r.doubleClick
  {
    var sampled := s.(left := left, middle := middle, right := right, doubleClick := false);
    var (pressed, latched) := IsPressed(sampled.latched, MouseLeft, IsDown(sampled, MouseLeft, false, false));
    sampled.(latched := latched, doubleClick := pressed && quickAndNear)
  }
}
