/** The Game Boy emulator wrapper of src/gb_emulator.py.

    PyBoy itself is outside the model.  Each call the wrapper makes into it
    (a frame tick, a button event, loading a saved state) is appended to the
    log `calls`, so the order and number of those calls can be stated.  The
    screen, which the wrapper reads from PyBoy, is a parameter of the
    methods that read it.  Reading a byte of memory is the `Memory`
    function of the `Emulator` module. */
module GbEmulator {
  import opened Wrappers
  import opened VisualUtil

  /** `GBAction`; the enum values 0..5 are given by `ActionValue`. */
  datatype GBAction = Up | Down | Left | Right | A | B

  function ActionValue(a: GBAction): nat {
    match a
    case Up => 0
    case Down => 1
    case Left => 2
    case Right => 3
    case A => 4
    case B => 5
  }

  /** `action_len`: `len(GBAction)`, the number of distinct actions. */
  function ActionLen(): (n: nat)
    ensures forall a :: ActionValue(a) < n
    ensures forall v :: 0 <= v < n ==> GetAction(v).Success?
  {
    6
  }

  /** `get_action(action)`: `GBAction(action)`, a ValueError for any other number. */
  function GetAction(action: int): (r: Result<GBAction>)
    ensures r.Success? <==> 0 <= action < 6
    ensures r.Success? ==> ActionValue(r.value) == action
  {
    if action == 0 then Success(Up)
    else if action == 1 then Success(Down)
    else if action == 2 then Success(Left)
    else if action == 3 then Success(Right)
    else if action == 4 then Success(A)
    else if action == 5 then Success(B)
    else Failure(ValueError("not a valid GBAction"))
  }

  /** Converting an action to its number and back gives the action again. */
  lemma GetActionRoundTrip(a: GBAction)
    ensures GetAction(ActionValue(a)) == Success(a)
  {
  }

  /** The buttons of the six actions and PyBoy's press and release events for them. */
  datatype Button = ArrowUp | ArrowDown | ArrowLeft | ArrowRight | ButtonA | ButtonB

  datatype WindowEvent = Press(button: Button) | Release(button: Button)

  /** `action_to_window_event`: the press event and the release event of one button. */
  function ActionToWindowEvent(action: GBAction): (r: (WindowEvent, WindowEvent))
    ensures r.0.Press? && r.1.Release? && r.0.button == r.1.button
  {
    match action
    case Up => (Press(ArrowUp), Release(ArrowUp))
    case Down => (Press(ArrowDown), Release(ArrowDown))
    case Left => (Press(ArrowLeft), Release(ArrowLeft))
    case Right => (Press(ArrowRight), Release(ArrowRight))
    case A => (Press(ButtonA), Release(ButtonA))
    case B => (Press(ButtonB), Release(ButtonB))
  }

  /** Different actions press different buttons. */
  lemma ActionToWindowEventInjective(a: GBAction, b: GBAction)
    ensures ActionToWindowEvent(a).0 == ActionToWindowEvent(b).0 ==> a == b
  {
  }

  /** A call the wrapper makes into PyBoy. */
  datatype PadCall = FrameTick | SendInput(event: WindowEvent) | LoadState(stateFile: string)

  /** The calls `tick(n)` makes: `range(n)` is empty when `n` is negative. */
  function Ticks(n: int): (r: seq<PadCall>)
    ensures |r| == if n < 0 then 0 else n
    ensures forall i :: 0 <= i < |r| ==> r[i] == FrameTick
  {
    if n <= 0 then [] else Ticks(n - 1) + [FrameTick]
  }

  /** Shape of a Game Boy screen, `(144, 160, 3)`. */
  const ScreenShape := Shape(144, 160, 3)

  /** `save_n_frames` */
  const SaveNFrames := 3

  /** `np.roll(frames, 1, axis=0)` followed by `frames[0] = frame`. */
  function Rolled(frames: seq<Image>, frame: Image): (r: seq<Image>)
    requires |frames| > 0
    ensures |r| == |frames|
    ensures r[0] == frame && forall i :: 0 < i < |r| ==> r[i] == frames[i - 1]
  {
    [frame] + frames[..|frames| - 1]
  }

  /** The buffer after `frames` was rolled with each of `news` in turn. */
  function RolledAll(frames: seq<Image>, news: seq<Image>): (r: seq<Image>)
    requires |frames| > 0
    ensures |r| == |frames|
  {
    if news == [] then frames else Rolled(RolledAll(frames, news[..|news| - 1]), news[|news| - 1])
  }

  /** The buffer keeps the most recent frames, newest first: after any
      number of actions slot `i` holds the `i`-th most recent frame, and the
      slots no action has reached yet still hold the initial frames. */
  lemma {:induction false} RolledAllRecent(frames: seq<Image>, news: seq<Image>, i: nat)
    requires |frames| > 0 && i < |frames|
    ensures RolledAll(frames, news)[i] == if i < |news| then news[|news| - 1 - i] else frames[i - |news|]
  {
    if news != [] {
      var init := news[..|news| - 1];
      var before := RolledAll(frames, init);
      assert RolledAll(frames, news) == Rolled(before, news[|news| - 1]);
      if i > 0 {
        RolledAllRecent(frames, init, i - 1);
        assert RolledAll(frames, news)[i] == before[i - 1];
        if i - 1 < |init| {
          assert init[|init| - 1 - (i - 1)] == news[|news| - 1 - i];
        }
      }
    }
  }

  /** The stop of the Python slice `[:n]` on a sequence of length `len`. */
  function SliceStop(n: int, len: nat): (stop: nat)
    ensures stop <= len
    ensures 0 <= n ==> stop == if n < len then n else len
    ensures n < 0 ==> stop + (if -n < len then -n else len) == len
  {
    if n < 0 then (if len + n < 0 then 0 else len + n)
    else if n < len then n
    else len
  }

  class GBEmulator {
    /** `config["init_state"]`, the state file `reset` loads. */
    const initState: string
    /** `config["action_freq"]`, the frames ticked while a button is held. */
    const actFreq: int
    /** The last `save_n_frames` screens, most recent first. */
    const lastNFrames: array<Image>
    /** `_current_frame`: `None` until a screen is read. */
    var currentFrameCache: Option<Image>
    /** Every call made into PyBoy, oldest first. */
    var calls: seq<PadCall>

    ghost predicate Valid()
      reads this
    {
      lastNFrames.Length == SaveNFrames
    }

    /** The frame buffer starts as three all-zero screens and no screen is cached. */
    constructor (initState: string, actFreq: int)
      ensures Valid() && fresh(lastNFrames)
      ensures this.initState == initState && this.actFreq == actFreq
      ensures lastNFrames[..] == [Zeros(ScreenShape), Zeros(ScreenShape), Zeros(ScreenShape)]
      ensures currentFrameCache == None && calls == []
    {
      this.initState, this.actFreq := initState, actFreq;
      lastNFrames := new Image[SaveNFrames](_ => Zeros(ScreenShape));
      currentFrameCache, calls := None, [];
    }

    /** `reset`: load the initial state.  Neither the cached screen nor the frame buffer is cleared. */
    method Reset()
      modifies this
      ensures calls == old(calls) + [LoadState(initState)]
      ensures currentFrameCache == old(currentFrameCache)
    {
      calls := calls + [LoadState(initState)];
    }

    /** `current_frame`: read the screen only when nothing is cached. */
    method CurrentFrame(screen: Image) returns (frame: Image)
      modifies this
      ensures old(currentFrameCache).Some? ==> frame == old(currentFrameCache).value && currentFrameCache == old(currentFrameCache)
      ensures old(currentFrameCache).None? ==> frame == screen && currentFrameCache == Some(screen)
      ensures calls == old(calls)
    {
      if currentFrameCache.None? {
        currentFrameCache := Some(screen);
      }
      frame := currentFrameCache.value;
    }

    /** `tick(n)`: advance the emulator `n` times. */
    method Tick(n: int)
      modifies this
      ensures calls == old(calls) + Ticks(n)
      ensures currentFrameCache == old(currentFrameCache)
    {
      var count := if n < 0 then 0 else n;
      for i := 0 to count
        invariant calls == old(calls) + Ticks(i)
        invariant currentFrameCache == old(currentFrameCache)
      {
        calls := calls + [FrameTick];
      }
    }

    /** The calls `run_action` makes into PyBoy: press, `actFreq` ticks, release. */
    static function ActionCalls(a: GBAction, actFreq: int): seq<PadCall> {
      [SendInput(ActionToWindowEvent(a).0)] + Ticks(actFreq) + [SendInput(ActionToWindowEvent(a).1)]
    }

    /** `run_action`: press the button, tick `act_freq` frames, release it,
        then cache the new screen and push it at the front of the buffer.
        An invalid action number raises before anything happens. */
    method RunAction(action: int, screen: Image) returns (o: Outcome)
      requires Valid()
      modifies this, lastNFrames
      ensures GetAction(action).Failure? ==>
        && o == Fail(GetAction(action).error)
        && calls == old(calls) && currentFrameCache == old(currentFrameCache) && lastNFrames[..] == old(lastNFrames[..])
      ensures GetAction(action).Success? ==>
        && o == Pass
        && calls == old(calls) + ActionCalls(GetAction(action).value, actFreq)
        && currentFrameCache == Some(screen)
        && lastNFrames[..] == Rolled(old(lastNFrames[..]), screen)
    {
      var a := GetAction(action);
      if a.Failure? {
        return Fail(a.error);
      }
      var events := ActionToWindowEvent(a.value);
      calls := calls + [SendInput(events.0)];
      Tick(actFreq);
      calls := calls + [SendInput(events.1)];
      currentFrameCache := Some(screen);
      lastNFrames[2] := lastNFrames[1];
      lastNFrames[1] := lastNFrames[0];
      lastNFrames[0] := screen;
      o := Pass;
    }

    /** `get_last_n_frames(n)`: the first slots of the buffer, as the slice `[:n]` picks them. */
    method GetLastNFrames(n: int) returns (frames: seq<Image>)
      requires Valid()
      ensures frames == lastNFrames[..SliceStop(n, SaveNFrames)]
    {
      frames := lastNFrames[..SliceStop(n, SaveNFrames)];
    }
  }
}
