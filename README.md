# ControlTank main system, modelled in Dafny

This project models the coordination logic of `MainSystem` in
`src/system_main.py`: the control loop of a camera-equipped tank that scans for
a face, follows the recognised target, and is started and stopped through a
running flag shared with a worker thread.

The model has three modules:

- `Policy` (`policy.dfy`): the actuator commands (`Forward`, `Clockwise`,
  `CounterClockwise`, each tagged with its settle delay, and `Stop`). It also
  holds the three closed actions of the behaviour policy (`Search`,
  `Follow(offset)`, `InitialRotate(clockwise)`) and the command pair each one
  issues (`Commands`). `Expand` gives the actuator trace of a sequence of
  actions. `Settled` says that a trace consists of whole actions.
- `Vision` (`vision.dfy`): the face rectangles and the recognizer's
  `(label, confidence)` results. It computes the centre and the horizontal
  offset exactly, in `real` arithmetic. It decides whether a face is followed
  (`Accepts`) and gives the actions for one frame (`FrameDecisions`) and for
  consecutive frames.
- `Control` (`control.dfy`): the camera feed and the running flag as oracle
  inputs. `LoopFrom` and `Run` are the specification of the worker loop. Lemmas
  cover loop control. The class `MainSystem` has these parts:
  - an append-only actuator trace `trace`;
  - a ghost log `actions` of the closed actions that issued it;
  - the lifecycle flags `mainThreadStarted` and `workerLaunched`.

  Its methods `Start`, `Stop`, `OneRotate`, `SearchFaces`, `FollowMe` and
  `MainLoop` follow the source's statements. `FrameLoop` is the `while` loop
  of `_main`, which `MainLoop` enters after the first read and the
  start-up rotation. `ActOnFrame` is the loop's body, the `for` loop over the
  faces. Each method is proved to change
  the trace and the log exactly as the specification functions say. The class
  invariant `Valid()` ties the trace to the log (`trace == Expand(actions)`).
  It follows that at every check of the loop condition no motion is in
  progress (`AtRest`).

The oracle inputs are modelled as follows:

- The camera is a sequence `feed` of `Option<Frame>`. Read number k returns
  `feed[k]`, or `None` once the feed is exhausted. A frame carries its width
  and the faces the detector reports. Each face is a rectangle plus the result
  the recognizer gives for its crop.
- The running flag, as the worker sees it at the k-th check of the loop
  condition, is `flag(k)`, a total function from iteration numbers to booleans.
  This is how a concurrent `stop` enters the sequential model.
- `random.choice` is the boolean `clockwise`.
- The exceptions from the actuator's `initialize` and the camera's `start`
  are the booleans `initRaises` and `cameraRaises`.
- The target label and the confidence threshold are the constructor's
  parameters, held in `cfg`.

Where the code departs from what its names and comments suggest, the model
follows the code:

- `stop` issues no actuator command. It only stops the camera, clears the
  flag and joins the worker.
- The negative-offset branch of `_follow_me` turns clockwise, as the positive
  branch does. The model keeps three steering branches (`Center`, `Right`,
  `Left`) and proves that `Right` and `Left` issue the same commands. It does
  not change the `Left` branch.
- The lifecycle is one boolean flag, not a five-state machine. `start` sets
  the flag before it launches the thread. A second `start` therefore sets the
  flag again, and then fails when it starts the thread, because a Python
  thread can only be started once.
- `stop` on a system whose worker was never launched raises when it joins the
  thread, after it has cleared the flag. The boolean `joinRaises` that `Stop`
  returns models this.
- The worker never assigns the running flag. When the feed runs out, the
  loop ends and the flag stays set until `stop` clears it; `MainLoop` leaves
  both lifecycle flags as they were.

## Model

| member | source | states |
|---|---|---|
| `Policy.Steering` | src/system_main.py:75-84 | the branch is `Center` exactly when -20 < diff < 20, `Right` exactly when diff >= 20, and `Left` exactly when diff <= -20 |
| `Policy.SteerCommands` | src/system_main.py:75-87 | no contract; defines the command pair of each branch of the follow step |
| `Policy.Commands` | src/system_main.py:60-87 | every policy action issues exactly one motion command and then `Stop` |
| `Policy.FollowForwardIff` | src/system_main.py:74-79 | a follow step moves forward (for 1 time unit, then stops) exactly when -20 < diff < 20, so diff = 20 and diff = -20 rotate |
| `Policy.FollowOffCenterIsSearch` | src/system_main.py:80-87 | with abs(diff) >= 20 the branch taken depends on the sign of diff, but both branches issue the scan step `[Clockwise(0.7), Stop]` |
| `Policy.FollowIgnoresSign` | src/system_main.py:74-87 | the follow step is the same for diff and -diff and never issues a counter-clockwise turn |
| `Policy.InitialRotateCommands` | src/system_main.py:60-66 | the start-up rotation turns clockwise when the choice is true and counter-clockwise otherwise, for 10 time units |
| `Policy.Expand` | src/system_main.py:60-87 | the trace of n actions has 2n commands |
| `Policy.ExpandAppend` | src/system_main.py:60-87 | the trace of consecutive actions is the concatenation of their traces (the actuator is append-only) |
| `Policy.ExpandSnoc` | src/system_main.py:60-87 | one more action appends exactly its two commands |
| `Policy.ExpandAt` | src/system_main.py:60-87 | action i occupies commands 2i and 2i+1 of the trace; the second one is `Stop` |
| `Policy.ExpandSettled` | src/system_main.py:60-87 | the trace of any sequence of actions is settled: each motion is immediately followed by `Stop` |
| `Policy.SettledEndsStopped` | src/system_main.py:60-87 | a settled trace is empty or ends with `Stop`, and has even length |
| `Vision.CenterX` | src/system_main.py:106 | no contract; defines the horizontal centre (x + x + w) / 2 of a face |
| `Vision.Offset` | src/system_main.py:106-116 | twice the offset is the integer width - 2x - w, so the offset frame_width/2 - (x + x + w)/2 is exact; it is zero exactly when the face is centred |
| `Vision.OffsetCentered` | src/system_main.py:74-116 | the offset lies in the centring band exactly when -40 < width - 2x - w < 40 |
| `Vision.Accepts` | src/system_main.py:115 | no contract; defines the follow test: the label is the target and the confidence is below the threshold |
| `Vision.FaceDecision` | src/system_main.py:115-120 | no contract; defines the action for one face: a follow step with its offset when accepted, a scan step otherwise |
| `Vision.FaceDecisions` | src/system_main.py:104-120 | the faces of a frame give exactly one action each |
| `Vision.FrameDecisions` | src/system_main.py:99-120 | no contract; defines the actions for one frame: one scan step without faces, otherwise the decisions for its faces |
| `Vision.FramesDecisions` | src/system_main.py:96-120 | no contract; defines the actions for consecutive frames, concatenated in order |
| `Vision.FaceDecisionsAt` | src/system_main.py:104-120 | the i-th action of a frame is the decision for its i-th face: detection order is kept |
| `Vision.FaceDecisionsSnoc` | src/system_main.py:104-120 | each pass of the loop over the faces appends the decision for the next face |
| `Vision.FrameDecisionsShape` | src/system_main.py:98-120 | a frame with no faces gives exactly one scan step; a frame with n > 0 faces gives n actions in face order; face i is followed, with its own offset, exactly when its label is the target and its confidence is below the threshold, and is a scan step otherwise |
| `Vision.FaceDecisionsNoRotate` | src/system_main.py:98-120 | no face produces the start-up rotation |
| `Vision.FacelessFramesSearch` | src/system_main.py:98-101 | frames without faces give one scan step each |
| `Vision.ExampleOffset` | src/system_main.py:106-116 | the face (100, 100, 50, 50) in a 640-wide frame has centre 125 and offset 195 and takes the clockwise branch |
| `Control.Read` | src/system_main.py:90-122 | no contract; defines camera read number k: the k-th entry of the feed, `None` once the feed runs out |
| `Control.LoopFrom` | src/system_main.py:96-124 | no contract; defines the loop from its k-th check on: while read k is a frame and the flag is seen set, that frame's actions, then the rest |
| `Control.Run` | src/system_main.py:89-124 | no contract; defines a run of the worker: nothing when the first read is `None`, otherwise the start-up rotation and then the loop |
| `Control.LoopFromSuffix` | src/system_main.py:96-124 | from any check k on, the loop processes the remaining frames read while the flag was seen set |
| `Control.LoopProcesses` | src/system_main.py:96-124 | frames read one after another while the flag is seen set, followed by a `None` read or a cleared flag, are processed exactly, each one completely and in order |
| `Control.LoopIgnoresLaterFrom` | src/system_main.py:96-124 | from any check j up to a check k where the flag is seen cleared, the loop depends only on reads before k |
| `Control.LoopIgnoresLater` | src/system_main.py:96-124 | once the flag is seen cleared at check k, frames read from k on have no effect on what the loop does |
| `Control.LoopFromNoRotate` | src/system_main.py:96-124 | the loop itself never issues the start-up rotation |
| `Control.RunShape` | src/system_main.py:89-96 | a run is empty exactly when the first read returns `None`; otherwise it starts with the one rotation and contains no other |
| `Control.RunProcesses` | src/system_main.py:89-124 | a run is the start-up rotation followed by the actions of exactly the processed frames, all measured against the first frame's width |
| `Control.RunSettled` | src/system_main.py:89-124 | the trace of any run is settled and ends at rest |
| `Control.ThreeFacelessFrames` | src/system_main.py:89-124 | three faceless frames and then the end of the feed give the start-up rotation and exactly three scan steps |
| `Control.SingleTargetFrame` | src/system_main.py:89-124 | one 640-wide frame with the accepted target at (100, 100, 50, 50) gives the rotation and then a follow step with offset 195 that turns clockwise |
| `Control.MainSystem.ValidAtRest` | src/system_main.py:60-87 | in every valid state the last actuator command, if any, is `Stop` |
| `Control.MainSystem.constructor` | src/system_main.py:28-33 | a new system has an empty trace, the flag cleared and no worker launched |
| `Control.MainSystem.Start` | src/system_main.py:35-48 | an exception from the actuator's `initialize` or the camera's `start` leaves the flag and the worker as they were; otherwise the flag is set and the worker is launched unless one was launched before; no command is issued |
| `Control.MainSystem.Stop` | src/system_main.py:50-53 | clears the flag, issues no actuator command, and raises when it joins a worker that was never launched, which cannot be the case while the flag was set |
| `Control.MainSystem.OneRotate` | src/system_main.py:60-66 | appends exactly `[Clockwise(10), Stop]` when the choice is true and `[CounterClockwise(10), Stop]` otherwise |
| `Control.MainSystem.SearchFaces` | src/system_main.py:68-72 | appends exactly `[Clockwise(0.7), Stop]` and nothing else |
| `Control.MainSystem.FollowMe` | src/system_main.py:74-87 | appends exactly the follow step's commands for diff: `[Forward(1), Stop]` inside the band, `[Clockwise(0.7), Stop]` on both sides outside it |
| `Control.MainSystem.ActOnFrame` | src/system_main.py:98-120 | one pass of the loop body appends exactly the frame's actions and their commands and leaves the tank at rest |
| `Control.MainSystem.MainLoop` | src/system_main.py:89-124 | the worker appends exactly the actions of `Run` and their commands, leaves the lifecycle flags as they were, and ends at rest |
| `Control.MainSystem.FrameLoop` | src/system_main.py:96-124 | the loop appends exactly the actions of `LoopFrom` from the first check on and their commands; the tank is at rest at every check of the loop condition (loop invariant) |

## Left out

- Threads: the worker thread, `join` blocking until the worker has exited,
  and the sharing of the flag between threads. The flag's value at each check
  is an input (`flag`). The claim that no command follows a completed `stop`
  depends on `join` and is not modelled.
- Signal handling: `_signal_handler`, the `signal.signal` installation in
  `start`, `sys.exit`, logging and the module-level instantiation and `start()`
  call at the end of the file. These are process plumbing.
- `time.sleep`: there is no time in the model. The settle delay of each
  motion is a label on its command. The 3-unit settle delay in `start` is
  not represented.
- The image work: cropping, `cv2.cvtColor`, `cv2.resize` and the inside of
  `FaceRecognizer.detect` and `recognize`. These are foreign library calls.
  Each face carries the recognizer's result for its crop as an input. An
  exception raised inside the loop (re-raised unchanged at lines 123-124) has
  no counterpart, because the inputs never fail.
- The vertical centre coordinate and the frame height: the source computes
  them but never uses them.
- `FaceRecognizer.FACE_RECOGNITION_CONF_TH`, `FaceLabel.me` and
  `FaceRecognizer.FACE_IMAGE_SIZE`: their definitions are not part of this
  model. The first two are the constructor's parameters `threshold` and
  `target`; the third is only used for resizing.
- The internals of `CameraFeeder` and `ControlTank`, including the effect of
  the actuator's `initialize` and of the camera's `start` and `stop`. These
  are external drivers. Only whether `initialize` and `start` raise is an
  input. The camera's `stop` call in `stop` has no modelled effect.
- `random.choice`: it is the boolean `clockwise`.
- Runs that never end: the feed is a finite sequence, so a run in which the
  camera never returns `None` and the flag is never cleared has no
  counterpart. The model does have each of its finite prefixes: those are the
  runs whose flag is seen cleared at some check k.
- Floating point: the source computes `center` and `diff` (lines 106 and 116)
  and compares `conf` (line 115) in Python floats; the model uses exact
  `real` arithmetic. The two agree on the offset, because halves of integers
  below 2^52 are exact in binary floating point.
- Other failures of `start`: the `except` at line 47 also catches errors from
  `signal.signal` (lines 44-45) and a `Thread.start` failure for lack of
  resources (line 43). Only the failure of a second `Thread.start` is
  modelled. A resource failure would leave the flag set with no worker, which
  the invariant `mainThreadStarted ==> workerLaunched` of `Valid()` excludes.
