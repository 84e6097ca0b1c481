/** The device viewer's own logic: deciding whether the input is a live
    camera, and the close flag that the keyboard callback sets and the event
    loop polls. Device access, frame generation and rendering belong to the
    camera SDK and are not modelled; an event batch is an opaque value. */
module Viewer {

  // ---------------------------------------------------------------------------
  // is_live_camera

  /** The command-line input as the predicate sees it: `isinstance(p, str)`
      holds only for `Str`. */
  datatype InputPath = Str(path: string) | NotStr

  /** `os.path.exists(p)`, with the file system given as the set of paths
      that exist; the empty path never exists. */
  predicate PathExists(existing: set<string>, p: string)
  {
    p != "" && p in existing
  }

  /** `is_live_camera(input_path)`. */
  predicate IsLiveCamera(input: InputPath, existing: set<string>)
  {
    input.Str? && !PathExists(existing, input.path)
  }

  /** The empty default of the command-line option means a live camera,
      whatever exists on disk. */
  lemma EmptyPathIsLive(existing: set<string>)
    ensures IsLiveCamera(Str(""), existing)
  {
  }

  /** A string input is live exactly when it names nothing on disk, as a
      camera serial number does; an existing file is a recording. */
  lemma LiveIffNotOnDisk(p: string, existing: set<string>)
    ensures IsLiveCamera(Str(p), existing) <==> (p == "" || p !in existing)
  {
  }

  /** The iterator the viewer uses: events straight from the device, or
      wrapped to be replayed at recording speed. */
  datatype IteratorKind = FromDevice | LiveReplay

  /** Only a path that exists on disk, or an input that is not a string at
      all, gets the replay wrapper; the empty path and a camera serial number
      are read from the device. */
  function ChooseIterator(input: InputPath, existing: set<string>): (k: IteratorKind)
    ensures k == LiveReplay <==>
      (input.NotStr? || (input.path != "" && input.path in existing))
  {
    if !IsLiveCamera(input, existing) then LiveReplay else FromDevice
  }

  // ---------------------------------------------------------------------------
  // Keyboard callback and close flag

  datatype Key = KeyEscape | KeyQ | OtherKey(code: int)

  datatype KeyAction = Release | Press | Repeat

  /** What the window passes to the keyboard callback. */
  datatype KeyEvent = KeyEvent(key: Key, scancode: int, action: KeyAction, mods: int)

  predicate IsCloseKey(k: Key)
  {
    k == KeyEscape || k == KeyQ
  }

  predicate HasCloseKey(events: seq<KeyEvent>)
  {
    exists i :: 0 <= i < |events| && IsCloseKey(events[i].key)
  }

  /** The window, reduced to its close flag. */
  class Window {
    var closeFlag: bool

    constructor ()
      ensures !closeFlag
    {
      closeFlag := false;
    }

    predicate ShouldClose()
      reads this
    {
      closeFlag
    }

    method SetCloseFlag()
      modifies this
      ensures closeFlag
    {
      closeFlag := true;
    }
  }

  /** `keyboard_cb`: Escape or Q sets the close flag, whatever the scancode,
      the action (press, release or repeat) and the modifiers; any other key
      leaves the flag as it was. */
  method KeyboardCallback(window: Window, event: KeyEvent)
    modifies window
    ensures window.closeFlag == (old(window.closeFlag) || IsCloseKey(event.key))
  {
    if event.key == KeyEscape || event.key == KeyQ {
      window.SetCloseFlag();
    }
  }

  /** `EventLoop.poll_and_dispatch()`: hands every pending key event to the
      window's keyboard callback, in order. */
  method PollAndDispatch(window: Window, pending: seq<KeyEvent>)
    modifies window
    ensures window.closeFlag == (old(window.closeFlag) || HasCloseKey(pending))
  {
    for i := 0 to |pending|
      invariant window.closeFlag == (old(window.closeFlag) || HasCloseKey(pending[..i]))
    {
      KeyboardCallback(window, pending[i]);
      assert pending[..i + 1] == pending[..i] + [pending[i]];
    }
    assert pending[..|pending|] == pending;
  }

  // ---------------------------------------------------------------------------
  // The event loop

  /** One pass of `for evs in mv_iterator`: the key events pending when the
      pass polls the window, and the batch of camera events it processes. */
  datatype Step<B> = Step(pending: seq<KeyEvent>, batch: B)

  /** The batches handed to the frame generator, as a reference definition:
      each pass processes its batch and then stops the loop if the flag is
      set. */
  function Processed<B>(steps: seq<Step<B>>): seq<B>
  {
    if steps == [] then []
    else if HasCloseKey(steps[0].pending) then [steps[0].batch]
    else [steps[0].batch] + Processed(steps[1..])
  }

  /** The loop processes the batches in order, up to and including the first
      pass during which Escape or Q was pressed, and none after it; without
      such a pass it processes every batch. */
  lemma {:induction false} ProcessedStopsAtFirstClose<B>(steps: seq<Step<B>>)
    ensures var p := Processed(steps);
      && |p| <= |steps|
      && (forall j :: 0 <= j < |p| ==> p[j] == steps[j].batch)
      && (forall j :: 0 <= j < |p| - 1 ==> !HasCloseKey(steps[j].pending))
      && (|p| < |steps| ==> |p| > 0 && HasCloseKey(steps[|p| - 1].pending))
      && (|p| == |steps| ==> forall j :: 0 <= j < |steps| - 1 ==> !HasCloseKey(steps[j].pending))
  {
    if steps != [] && !HasCloseKey(steps[0].pending) {
      ProcessedStopsAtFirstClose(steps[1..]);
    }
  }

  /** The viewer's main loop over the event batches, with a fresh window:
      poll the window, process the batch, leave the loop once the window
      should close. Returns the batches given to the frame generator. */
  method RunEventLoop<B>(steps: seq<Step<B>>) returns (processed: seq<B>)
    ensures processed == Processed(steps)
  {
    var window := new Window();
    processed := [];
    for i := 0 to |steps|
      invariant !window.closeFlag
      invariant processed + Processed(steps[i..]) == Processed(steps)
    {
      PollAndDispatch(window, steps[i].pending);
      processed := processed + [steps[i].batch];
      if window.ShouldClose() {
        break;
      }
    }
  }
}
