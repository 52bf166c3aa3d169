/** What the control loop makes of the vision results: the centre and
    horizontal offset of a detected face, whether its recognition result
    is accepted as the target, and the actions one frame produces. */
module Vision {
  import opened Policy

  /** A detected face region, (x, y, w, h) in the frame's pixel grid. */
  datatype Rect = Rect(x: int, y: int, w: int, h: int)

  /** The recognizer's answer for one face: an identity label and a
      confidence score (lower is more confident). */
  datatype Recognition = Recognition(identity: int, conf: real)

  /** A detected face together with what the recognizer said about its crop. */
  datatype Face = Face(rect: Rect, recognition: Recognition)

  /** One camera frame as the loop sees it: its width (the second component
      of the frame's shape) and the faces the detector reports, in order. */
  datatype Frame = Frame(width: int, faces: seq<Face>)

  /** The target identity and the confidence threshold of the recognizer. */
  datatype Config = Config(target: int, threshold: real)

  /** The horizontal centre of a face region, computed exactly. */
  function CenterX(r: Rect): real {
    (r.x + r.x + r.w) as real / 2.0
  }

  /** The horizontal offset of a face from the middle of the frame. Twice
      the offset is an integer, so the arithmetic is exact. */
  function Offset(width: int, r: Rect): (d: real)
    ensures 2.0 * d == (width - 2 * r.x - r.w) as real
    ensures d == 0.0 <==> 2 * r.x + r.w == width
  {
    width as real / 2.0 - CenterX(r)
  }

  /** On doubled integers: an offset lies inside the centring band exactly
      when the doubled offset lies strictly between -40 and 40. */
  lemma OffsetCentered(width: int, r: Rect)
    ensures Abs(Offset(width, r)) < CenterBand <==> -40 < width - 2 * r.x - r.w < 40
  {
  }

  /** A recognition result is followed only for the target label below the
      confidence threshold. */
  predicate Accepts(cfg: Config, rec: Recognition) {
    rec.identity == cfg.target && rec.conf < cfg.threshold
  }

  /** The action the loop takes for one face of a frame of the given width. */
  function FaceDecision(cfg: Config, width: int, f: Face): Action {
    if Accepts(cfg, f.recognition) then Follow(Offset(width, f.rect)) else Search
  }

  /** The actions for the faces of a frame, one per face, in detection order.
      Defined from the back, as the loop over the faces builds it. */
  function FaceDecisions(cfg: Config, width: int, faces: seq<Face>): (r: seq<Action>)
    ensures |r| == |faces|
  {
    if faces == [] then []
    else FaceDecisions(cfg, width, faces[..|faces| - 1]) + [FaceDecision(cfg, width, faces[|faces| - 1])]
  }

  /** The actions for one frame: one scan step when no face is reported,
      otherwise one action per face. */
  function FrameDecisions(cfg: Config, width: int, faces: seq<Face>): seq<Action> {
    if |faces| == 0 then [Search] else FaceDecisions(cfg, width, faces)
  }

  /** The actions for consecutive frames, all measured with one width. */
  function FramesDecisions(cfg: Config, width: int, frames: seq<Frame>): seq<Action> {
    if frames == [] then []
    else FrameDecisions(cfg, width, frames[0].faces) + FramesDecisions(cfg, width, frames[1..])
  }

  lemma {:induction false} FaceDecisionsAt(cfg: Config, width: int, faces: seq<Face>, i: nat)
    requires i < |faces|
    ensures FaceDecisions(cfg, width, faces)[i] == FaceDecision(cfg, width, faces[i])
  {
    var n := |faces| - 1;
    if i < n {
      FaceDecisionsAt(cfg, width, faces[..n], i);
    }
  }

  /** The actions for the first i + 1 faces extend those for the first i. */
  lemma FaceDecisionsSnoc(cfg: Config, width: int, faces: seq<Face>, i: nat)
    requires i < |faces|
    ensures FaceDecisions(cfg, width, faces[..i + 1]) ==
            FaceDecisions(cfg, width, faces[..i]) + [FaceDecision(cfg, width, faces[i])]
  {
    assert faces[..i + 1][..i] == faces[..i];
  }

  /** Per-frame dispatch: zero faces give exactly one scan step; n faces give
      exactly n actions in face order, face i being followed (with its own
      offset) exactly when its recognition result is accepted. */
  lemma FrameDecisionsShape(cfg: Config, width: int, faces: seq<Face>)
    ensures |faces| == 0 ==> FrameDecisions(cfg, width, faces) == [Search]
    ensures |faces| > 0 ==> |FrameDecisions(cfg, width, faces)| == |faces|
    ensures forall i :: 0 <= i < |faces| ==>
              (FrameDecisions(cfg, width, faces)[i].Follow? <==> Accepts(cfg, faces[i].recognition))
    ensures forall i :: 0 <= i < |faces| ==>
              (FrameDecisions(cfg, width, faces)[i] ==
                 if Accepts(cfg, faces[i].recognition) then Follow(Offset(width, faces[i].rect)) else Search)
  {
    forall i | 0 <= i < |faces|
      ensures FrameDecisions(cfg, width, faces)[i] == FaceDecision(cfg, width, faces[i])
    {
      FaceDecisionsAt(cfg, width, faces, i);
    }
  }

  /** No face of a frame produces the start-up rotation. */
  lemma {:induction false} FaceDecisionsNoRotate(cfg: Config, width: int, faces: seq<Face>)
    ensures forall a :: a in FaceDecisions(cfg, width, faces) ==> !a.InitialRotate?
  {
    if faces != [] {
      FaceDecisionsNoRotate(cfg, width, faces[..|faces| - 1]);
    }
  }

  /** Frames in which no face is reported give one scan step each. */
  lemma {:induction false} FacelessFramesSearch(cfg: Config, width: int, frames: seq<Frame>)
    requires forall j :: 0 <= j < |frames| ==> frames[j].faces == []
    ensures FramesDecisions(cfg, width, frames) == seq(|frames|, _ => Search)
  {
    if frames != [] {
      FacelessFramesSearch(cfg, width, frames[1..]);
    }
  }

  /** The worked example: a target face at (100, 100, 50, 50) in a frame
      640 pixels wide is 195 pixels off centre and takes the rotate branch. */
  lemma ExampleOffset()
    ensures CenterX(Rect(100, 100, 50, 50)) == 125.0
    ensures Offset(640, Rect(100, 100, 50, 50)) == 195.0
    ensures Steering(195.0) == Right
    ensures Commands(Follow(195.0)) == [Clockwise(SearchHold), Stop]
  {
  }
}
