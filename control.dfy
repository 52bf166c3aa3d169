/** The control loop of the tank: the frames it reads, the actions its loop
    takes, and the MainSystem object whose actuator trace and lifecycle
    flags the loop and the start/stop operations update. */
module Control {
  import opened Policy
  import opened Vision

  datatype Option<T> = None | Some(value: T)

  /** What the k-th camera read returns. The feed is what the camera
      delivers; once it runs out, every further read returns None. */
  function Read(feed: seq<Option<Frame>>, k: nat): Option<Frame> {
    if k < |feed| then feed[k] else None
  }

  /** The actions the loop takes from its k-th check of the loop condition
      on. `flag(k)` is the running flag as the worker sees it at that check;
      the frame examined there is read number k. */
  function LoopFrom(cfg: Config, width: int, feed: seq<Option<Frame>>, flag: nat -> bool, k: nat): seq<Action>
    decreases |feed| - k
  {
    if Read(feed, k).Some? && flag(k) then
      FrameDecisions(cfg, width, Read(feed, k).value.faces) + LoopFrom(cfg, width, feed, flag, k + 1)
    else []
  }

  /** All actions of one run of the worker: nothing if the first read yields
      no frame; otherwise the start-up rotation, then the loop, measuring
      every offset against the width of the first frame. */
  function Run(cfg: Config, feed: seq<Option<Frame>>, flag: nat -> bool, clockwise: bool): seq<Action> {
    match Read(feed, 0)
    case None => []
    case Some(first) => [InitialRotate(clockwise)] + LoopFrom(cfg, first.width, feed, flag, 0)
  }

  // ---------------------------------------------------------------------
  // Loop control

  lemma {:induction false} LoopFromSuffix(cfg: Config, width: int, feed: seq<Option<Frame>>, flag: nat -> bool,
                                          frames: seq<Frame>, k: nat)
    requires k <= |frames|
    requires forall i :: 0 <= i < |frames| ==> Read(feed, i) == Some(frames[i]) && flag(i)
    requires Read(feed, |frames|).None? || !flag(|frames|)
    ensures LoopFrom(cfg, width, feed, flag, k) == FramesDecisions(cfg, width, frames[k..])
    decreases |frames| - k
  {
    if k < |frames| {
      assert frames[k..][1..] == frames[k + 1..];
      LoopFromSuffix(cfg, width, feed, flag, frames, k + 1);
    }
  }

  /** Given frames read one after another while the flag is seen set, and
      then a read yielding nothing or the flag seen cleared, the loop
      processes exactly those frames, each one completely, in order. */
  lemma LoopProcesses(cfg: Config, width: int, feed: seq<Option<Frame>>, flag: nat -> bool, frames: seq<Frame>)
    requires forall i :: 0 <= i < |frames| ==> Read(feed, i) == Some(frames[i]) && flag(i)
    requires Read(feed, |frames|).None? || !flag(|frames|)
    ensures LoopFrom(cfg, width, feed, flag, 0) == FramesDecisions(cfg, width, frames)
  {
    LoopFromSuffix(cfg, width, feed, flag, frames, 0);
    assert frames[0..] == frames;
  }

  lemma {:induction false} LoopIgnoresLaterFrom(cfg: Config, width: int, feed: seq<Option<Frame>>,
                                                later: seq<Option<Frame>>, flag: nat -> bool, k: nat, j: nat)
    requires j <= k && !flag(k)
    requires forall i :: 0 <= i < k ==> Read(feed, i) == Read(later, i)
    ensures LoopFrom(cfg, width, feed, flag, j) == LoopFrom(cfg, width, later, flag, j)
    decreases k - j
  {
    if j < k {
      LoopIgnoresLaterFrom(cfg, width, feed, later, flag, k, j + 1);
    }
  }

  /** Once the flag is seen cleared at check k, no frame read from then on
      has any effect: two feeds that agree on their first k reads give the
      same actions. */
  lemma LoopIgnoresLater(cfg: Config, width: int, feed: seq<Option<Frame>>, later: seq<Option<Frame>>,
                         flag: nat -> bool, k: nat)
    requires !flag(k)
    requires forall i :: 0 <= i < k ==> Read(feed, i) == Read(later, i)
    ensures LoopFrom(cfg, width, feed, flag, 0) == LoopFrom(cfg, width, later, flag, 0)
  {
    LoopIgnoresLaterFrom(cfg, width, feed, later, flag, k, 0);
  }

  lemma {:induction false} LoopFromNoRotate(cfg: Config, width: int, feed: seq<Option<Frame>>, flag: nat -> bool, k: nat)
    ensures forall a :: a in LoopFrom(cfg, width, feed, flag, k) ==> !a.InitialRotate?
    decreases |feed| - k
  {
    if Read(feed, k).Some? && flag(k) {
      var faces := Read(feed, k).value.faces;
      FaceDecisionsNoRotate(cfg, width, faces);
      LoopFromNoRotate(cfg, width, feed, flag, k + 1);
    }
  }

  /** A run does nothing when the first read yields no frame; otherwise it
      begins with the start-up rotation and has no other rotation. */
  lemma RunShape(cfg: Config, feed: seq<Option<Frame>>, flag: nat -> bool, clockwise: bool)
    ensures Read(feed, 0).None? <==> Run(cfg, feed, flag, clockwise) == []
    ensures Read(feed, 0).Some? ==> Run(cfg, feed, flag, clockwise)[0] == InitialRotate(clockwise)
    ensures forall i :: 1 <= i < |Run(cfg, feed, flag, clockwise)| ==>
              !Run(cfg, feed, flag, clockwise)[i].InitialRotate?
  {
    if Read(feed, 0).Some? {
      var loop := LoopFrom(cfg, Read(feed, 0).value.width, feed, flag, 0);
      LoopFromNoRotate(cfg, Read(feed, 0).value.width, feed, flag, 0);
      assert forall i :: 1 <= i < |Run(cfg, feed, flag, clockwise)| ==>
               Run(cfg, feed, flag, clockwise)[i] == loop[i - 1];
    }
  }

  /** A run over frames read while the flag is seen set: the start-up
      rotation, then the actions of exactly those frames, all measured
      against the width of the first frame. */
  lemma RunProcesses(cfg: Config, feed: seq<Option<Frame>>, flag: nat -> bool, clockwise: bool, frames: seq<Frame>)
    requires Read(feed, 0).Some?
    requires forall i :: 0 <= i < |frames| ==> Read(feed, i) == Some(frames[i]) && flag(i)
    requires Read(feed, |frames|).None? || !flag(|frames|)
    ensures Run(cfg, feed, flag, clockwise) ==
            [InitialRotate(clockwise)] + FramesDecisions(cfg, Read(feed, 0).value.width, frames)
  {
    LoopProcesses(cfg, Read(feed, 0).value.width, feed, flag, frames);
  }

  /** The trace of every run is settled and ends at rest. */
  lemma RunSettled(cfg: Config, feed: seq<Option<Frame>>, flag: nat -> bool, clockwise: bool)
    ensures Settled(Expand(Run(cfg, feed, flag, clockwise)))
    ensures var t := Expand(Run(cfg, feed, flag, clockwise)); t == [] || t[|t| - 1] == Stop
  {
    ExpandSettled(Run(cfg, feed, flag, clockwise));
    SettledEndsStopped(Expand(Run(cfg, feed, flag, clockwise)));
  }

  /** Three frames without faces, then the end of the feed: the start-up
      rotation and exactly three scan steps. */
  lemma ThreeFacelessFrames(cfg: Config, flag: nat -> bool, clockwise: bool, f1: Frame, f2: Frame, f3: Frame)
    requires f1.faces == [] && f2.faces == [] && f3.faces == []
    requires flag(0) && flag(1) && flag(2)
    ensures Run(cfg, [Some(f1), Some(f2), Some(f3)], flag, clockwise) ==
            [InitialRotate(clockwise), Search, Search, Search]
  {
    var frames := [f1, f2, f3];
    RunProcesses(cfg, [Some(f1), Some(f2), Some(f3)], flag, clockwise, frames);
    FacelessFramesSearch(cfg, f1.width, frames);
  }

  /** One frame 640 pixels wide holding the target at (100, 100, 50, 50):
      the follow step gets offset 195 and rotates clockwise. */
  lemma SingleTargetFrame(cfg: Config, flag: nat -> bool, clockwise: bool, conf: real)
    requires conf < cfg.threshold && flag(0)
    ensures var feed := [Some(Frame(640, [Face(Rect(100, 100, 50, 50), Recognition(cfg.target, conf))]))];
            Run(cfg, feed, flag, clockwise) == [InitialRotate(clockwise), Follow(195.0)] &&
            Expand(Run(cfg, feed, flag, clockwise))[2..] == [Clockwise(SearchHold), Stop]
  {
    var face := Face(Rect(100, 100, 50, 50), Recognition(cfg.target, conf));
    var feed := [Some(Frame(640, [face]))];
    RunProcesses(cfg, feed, flag, clockwise, [Frame(640, [face])]);
    assert FaceDecisions(cfg, 640, [face]) == [Follow(195.0)] by {
      assert [face][..0] == [];
    }
  }

  lemma Regroup<T>(a: seq<T>, b: seq<T>, c: seq<T>)
    ensures a + (b + c) == (a + b) + c
  {
  }

  // ---------------------------------------------------------------------
  // The system object

  /** The main system. The actuator is the append-only command trace; the
      ghost action log records which closed action issued each pair of
      commands; the flags are those of the worker's lifecycle. */
  class MainSystem {
    const cfg: Config
    var trace: seq<Command>
    ghost var actions: seq<Action>
    var mainThreadStarted: bool
    var workerLaunched: bool

    /** The trace is the commands of the logged actions, and the running
        flag is only ever set once the worker thread exists. */
    ghost predicate Valid()
      reads this
    {
      trace == Expand(actions) && (mainThreadStarted ==> workerLaunched)
    }

    /** No motion is in progress: the last command sent, if any, is Stop. */
    ghost predicate AtRest()
      reads this
    {
      trace == [] || trace[|trace| - 1] == Command.Stop
    }

    /** Every state the object's operations leave is at rest. */
    lemma ValidAtRest()
      requires Valid()
      ensures AtRest()
    {
      ExpandSettled(actions);
      SettledEndsStopped(trace);
    }

    constructor (target: int, threshold: real)
      ensures Valid()
      ensures cfg == Config(target, threshold)
      ensures trace == [] && actions == []
      ensures !mainThreadStarted && !workerLaunched
    {
      cfg := Config(target, threshold);
      trace, actions := [], [];
      mainThreadStarted, workerLaunched := false, false;
    }

    /** Starts the system. `initRaises` and `cameraRaises` say whether the
        actuator's initialisation and the camera's start raise; either one
        is caught and leaves the flags as they were. Otherwise the flag is
        set and the worker is launched, unless a worker was launched
        before: starting a thread twice raises, after the flag was set. */
    method Start(initRaises: bool, cameraRaises: bool) returns (launched: bool)
      requires Valid()
      modifies this`mainThreadStarted, this`workerLaunched
      ensures Valid()
      ensures trace == old(trace)
      ensures mainThreadStarted == (old(mainThreadStarted) || (!initRaises && !cameraRaises))
      ensures launched == (!initRaises && !cameraRaises && !old(workerLaunched))
      ensures workerLaunched == (old(workerLaunched) || launched)
    {
      launched := false;
      if initRaises {
        return;
      }
      if cameraRaises {
        return;
      }
      mainThreadStarted := true;
      if workerLaunched {
        return;
      }
      workerLaunched := true;
      launched := true;
    }

    /** Stops the system: clears the running flag and issues no actuator
        command. Joining a worker that was never launched raises; that
        cannot happen while the flag is set. */
    method Stop() returns (joinRaises: bool)
      requires Valid()
      modifies this`mainThreadStarted
      ensures Valid()
      ensures !mainThreadStarted
      ensures trace == old(trace) && workerLaunched == old(workerLaunched)
      ensures joinRaises == !workerLaunched
      ensures old(mainThreadStarted) ==> !joinRaises
    {
      mainThreadStarted := false;
      joinRaises := !workerLaunched;
    }

    /** The start-up rotation; `clockwise` is the random choice. */
    method OneRotate(clockwise: bool)
      requires Valid()
      modifies this`trace, this`actions
      ensures Valid()
      ensures actions == old(actions) + [InitialRotate(clockwise)]
      ensures trace == old(trace) + Commands(InitialRotate(clockwise))
    {
      if clockwise {
        trace := trace + [Clockwise(RotateHold)];
      } else {
        trace := trace + [CounterClockwise(RotateHold)];
      }
      trace := trace + [Command.Stop];
      actions := actions + [InitialRotate(clockwise)];
      ExpandSnoc(old(actions), InitialRotate(clockwise));
    }

    /** One scan step: a short clockwise turn. */
    method SearchFaces()
      requires Valid()
      modifies this`trace, this`actions
      ensures Valid()
      ensures actions == old(actions) + [Search]
      ensures trace == old(trace) + Commands(Search)
    {
      trace := trace + [Clockwise(SearchHold)];
      trace := trace + [Command.Stop];
      actions := actions + [Search];
      ExpandSnoc(old(actions), Search);
    }

    /** One follow step for a horizontal offset `diff`. */
    method FollowMe(diff: real)
      requires Valid()
      modifies this`trace, this`actions
      ensures Valid()
      ensures actions == old(actions) + [Follow(diff)]
      ensures trace == old(trace) + Commands(Follow(diff))
    {
      if Abs(diff) < CenterBand {
        trace := trace + [Forward(ForwardHold)];
        trace := trace + [Command.Stop];
      } else if diff > 0.0 {
        trace := trace + [Clockwise(SearchHold)];
        trace := trace + [Command.Stop];
      } else {
        trace := trace + [Clockwise(SearchHold)];
        trace := trace + [Command.Stop];
      }
      actions := actions + [Follow(diff)];
      ExpandSnoc(old(actions), Follow(diff));
    }

    /** The body of the worker loop for one frame whose faces the detector
        reported (each with its recognition result), measured against
        `frameWidth`. */
    method ActOnFrame(frameWidth: int, faces: seq<Face>)
      requires Valid()
      modifies this`trace, this`actions
      ensures Valid()
      ensures actions == old(actions) + FrameDecisions(cfg, frameWidth, faces)
      ensures trace == old(trace) + Expand(FrameDecisions(cfg, frameWidth, faces))
      ensures AtRest()
    {
      if |faces| == 0 {
        SearchFaces();
      } else {
        for i := 0 to |faces|
          invariant Valid()
          invariant actions == old(actions) + FaceDecisions(cfg, frameWidth, faces[..i])
        {
          var face := faces[i];
          var center := CenterX(face.rect);
          var recognized := face.recognition;
          if recognized.identity == cfg.target && recognized.conf < cfg.threshold {
            var diff := frameWidth as real / 2.0 - center;
            FollowMe(diff);
          } else {
            SearchFaces();
          }
          FaceDecisionsSnoc(cfg, frameWidth, faces, i);
          Regroup(old(actions), FaceDecisions(cfg, frameWidth, faces[..i]), [FaceDecision(cfg, frameWidth, face)]);
        }
        assert faces[..|faces|] == faces;
      }
      ExpandAppend(old(actions), FrameDecisions(cfg, frameWidth, faces));
      ValidAtRest();
    }

    /** The worker: read the first frame, do the start-up rotation if there
        is one (`clockwise` is the random choice), then run the loop over
        the frames of `feed` while the flag is seen set, as `Run` describes.
        The worker never touches the lifecycle flags: when the feed runs
        out, the running flag stays as it was. */
    method MainLoop(feed: seq<Option<Frame>>, flag: nat -> bool, clockwise: bool)
      requires Valid()
      modifies this`trace, this`actions
      ensures Valid()
      ensures actions == old(actions) + Run(cfg, feed, flag, clockwise)
      ensures trace == old(trace) + Expand(Run(cfg, feed, flag, clockwise))
      ensures mainThreadStarted == old(mainThreadStarted) && workerLaunched == old(workerLaunched)
      ensures AtRest()
    {
      var frame := Read(feed, 0);
      var frameWidth := 0;
      if frame.Some? {
        frameWidth := frame.value.width;
        OneRotate(clockwise);
        assert mainThreadStarted == old(mainThreadStarted) && workerLaunched == old(workerLaunched);
      }
      FrameLoop(feed, flag, frameWidth, frame);
      assert mainThreadStarted == old(mainThreadStarted) && workerLaunched == old(workerLaunched);
      if frame.Some? {
        Regroup(old(actions), [InitialRotate(clockwise)], LoopFrom(cfg, frameWidth, feed, flag, 0));
      }
      ExpandAppend(old(actions), Run(cfg, feed, flag, clockwise));
    }

    /** The loop of the worker, entered with the first frame read and the
        width taken from it: act on the current frame and read the next one
        while the frame exists and the flag is seen set. At every check of
        the loop condition the tank is at rest. */
    method FrameLoop(feed: seq<Option<Frame>>, flag: nat -> bool, frameWidth: int, first: Option<Frame>)
      requires Valid()
      requires first == Read(feed, 0)
      modifies this`trace, this`actions
      ensures Valid() && AtRest()
      ensures actions == old(actions) + LoopFrom(cfg, frameWidth, feed, flag, 0)
      ensures trace == old(trace) + Expand(LoopFrom(cfg, frameWidth, feed, flag, 0))
    {
      var k := 0;
      var frame := first;
      ghost var acted := actions + LoopFrom(cfg, frameWidth, feed, flag, 0);
      ValidAtRest();
      while frame.Some? && flag(k)
        invariant Valid() && AtRest()
        invariant frame == Read(feed, k)
        invariant acted == actions + LoopFrom(cfg, frameWidth, feed, flag, k)
        decreases |feed| - k
      {
        ghost var here := actions;
        ActOnFrame(frameWidth, frame.value.faces);
        Regroup(here, FrameDecisions(cfg, frameWidth, frame.value.faces), LoopFrom(cfg, frameWidth, feed, flag, k + 1));
        k := k + 1;
        frame := Read(feed, k);
      }
      assert LoopFrom(cfg, frameWidth, feed, flag, k) == [];
      ExpandAppend(old(actions), LoopFrom(cfg, frameWidth, feed, flag, 0));
    }
  }
}
