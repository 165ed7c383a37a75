/** The per-frame decision inside `detect` in components/Showtime.tsx: read the two
    smile blendshapes of the first face, compare their average with the laugh
    threshold, and report a laugh when the cooldown since the last one has passed. */
module LaughDetection {

  /** One named blendshape score, as the face landmarker reports it. */
  datatype Category = Category(categoryName: string, score: real)

  /** The blendshape scores of one face. */
  datatype Classifications = Classifications(categories: seq<Category>)

  /** What the face landmarker returns for one frame: how many faces it found
      landmarks for, and the blendshapes of each face it scored. */
  datatype FaceLandmarkerResult = FaceLandmarkerResult(faceCount: nat, faceBlendshapes: seq<Classifications>)

  /** `LAUGH_THRESHOLD` and `COOLDOWN_PERIOD` (milliseconds). */
  datatype DetectorConfig = DetectorConfig(laughThreshold: real, cooldownPeriod: int)

  /** The `lastLaughTime` ref and the `isSmiling` display cell. */
  datatype DetectorState = DetectorState(lastLaughTime: int, isSmiling: bool)

  /** The state after one frame and whether the frame reported a laugh. */
  datatype FrameOutcome = FrameOutcome(state: DetectorState, laugh: bool)

  /** One frame of the detection loop: the landmarker's result and the clock reading. */
  datatype Tick = Tick(result: FaceLandmarkerResult, now: int)

  const MouthSmileLeft: string := "mouthSmileLeft"
  const MouthSmileRight: string := "mouthSmileRight"

  /** The state the component mounts with. */
  const Fresh: DetectorState := DetectorState(0, false)

  /** Whether every category scores within [0, 1], as the landmarker's scores do. */
  predicate UnitScores(cats: seq<Category>) {
    forall i :: 0 <= i < |cats| ==> 0.0 <= cats[i].score <= 1.0
  }

  /** Whether `i` is the index of the first category named `name`. */
  predicate FirstNamed(cats: seq<Category>, name: string, i: int) {
    0 <= i < |cats| && cats[i].categoryName == name
    && forall j :: 0 <= j < i ==> cats[j].categoryName != name
  }

  /** Whether no category is named `name`. */
  predicate Missing(cats: seq<Category>, name: string) {
    forall i :: 0 <= i < |cats| ==> cats[i].categoryName != name
  }

  /** `categories.find(c => c.categoryName == name)?.score || 0`: the score of the
      first category of that name, or 0 when there is none. */
  function CategoryScore(cats: seq<Category>, name: string): (r: real)
    ensures Missing(cats, name) ==> r == 0.0
    ensures forall i :: FirstNamed(cats, name, i) ==> r == cats[i].score
    ensures UnitScores(cats) ==> 0.0 <= r <= 1.0
  {
    if |cats| == 0 then 0.0
    else if cats[0].categoryName == name then cats[0].score
    else
      assert forall i :: 1 <= i < |cats| ==> cats[i] == cats[1..][i - 1];
      assert forall i :: FirstNamed(cats, name, i) ==> FirstNamed(cats[1..], name, i - 1);
      CategoryScore(cats[1..], name)
  }

  /** The smile score of one face: the mean of its left and right smile scores.
      With landmarker scores in [0, 1] it lies in [0, 1] too. */
  function SmileScore(cats: seq<Category>): (r: real)
    ensures UnitScores(cats) ==> 0.0 <= r <= 1.0
  {
    (CategoryScore(cats, MouthSmileLeft) + CategoryScore(cats, MouthSmileRight)) / 2.0
  }

  /** The two names the detector reads are different categories. */
  lemma DistinctSmileNames()
    ensures MouthSmileLeft != MouthSmileRight
  {
    assert MouthSmileLeft[10] != MouthSmileRight[10];
  }

  /** Wherever the two smile categories stand in the list, the smile score is the mean
      of the first score of each. */
  lemma SmileScoreOfBoth(cats: seq<Category>, i: int, j: int)
    requires FirstNamed(cats, MouthSmileLeft, i) && FirstNamed(cats, MouthSmileRight, j)
    ensures SmileScore(cats) == (cats[i].score + cats[j].score) / 2.0
  {
  }

  /** A missing `mouthSmileLeft` counts as a score of zero in the mean. */
  lemma SmileScoreMissingLeft(cats: seq<Category>, j: int)
    requires Missing(cats, MouthSmileLeft) && FirstNamed(cats, MouthSmileRight, j)
    ensures SmileScore(cats) == cats[j].score / 2.0
  {
  }

  /** A missing `mouthSmileRight` counts as a score of zero in the mean. */
  lemma SmileScoreMissingRight(cats: seq<Category>, i: int)
    requires FirstNamed(cats, MouthSmileLeft, i) && Missing(cats, MouthSmileRight)
    ensures SmileScore(cats) == cats[i].score / 2.0
  {
  }

  /** A face with neither smile category scores zero. */
  lemma SmileScoreMissingBoth(cats: seq<Category>)
    requires Missing(cats, MouthSmileLeft) && Missing(cats, MouthSmileRight)
    ensures SmileScore(cats) == 0.0
  {
  }

  /** The smiling test: strictly above the threshold, so a score exactly at the threshold
      is not a smile. */
  predicate Smiling(cfg: DetectorConfig, score: real)
    ensures score == cfg.laughThreshold ==> !Smiling(cfg, score)
  {
    score > cfg.laughThreshold
  }

  /** Whether the cooldown since the last laugh has strictly passed at `now`: not yet at
      exactly the cooldown period; and since a fresh detector's last laugh time is 0, its
      first laugh needs a clock past the cooldown period itself. */
  predicate CooledDown(cfg: DetectorConfig, s: DetectorState, now: int)
    ensures now - s.lastLaughTime == cfg.cooldownPeriod ==> !CooledDown(cfg, s, now)
    ensures s == Fresh ==> (CooledDown(cfg, s, now) <==> now > cfg.cooldownPeriod)
  {
    now - s.lastLaughTime > cfg.cooldownPeriod
  }

  /** One call of `detect` on one landmarker result, as a function of the prior state. */
  function Step(cfg: DetectorConfig, s: DetectorState, res: FaceLandmarkerResult, now: int): (r: FrameOutcome)
    ensures r.state.lastLaughTime == if r.laugh then now else s.lastLaughTime
    ensures r.laugh ==> CooledDown(cfg, s, now) && r.state.isSmiling
    ensures res.faceCount == 0 ==> !r.laugh && !r.state.isSmiling
  {
    if res.faceCount == 0 then
      FrameOutcome(s.(isSmiling := false), false)
    else if |res.faceBlendshapes| == 0 then
      FrameOutcome(s, false)
    else
      var smiling := Smiling(cfg, SmileScore(res.faceBlendshapes[0].categories));
      if smiling && CooledDown(cfg, s, now) then FrameOutcome(DetectorState(now, true), true)
      else FrameOutcome(s.(isSmiling := smiling), false)
  }

  /** Whether the result has a face with blendshape scores. */
  predicate Scored(res: FaceLandmarkerResult) {
    res.faceCount > 0 && |res.faceBlendshapes| > 0
  }

  /** A frame reports a laugh exactly when it has a scored face that smiles and the
      cooldown has passed; the laugh time moves to `now` then and stays put otherwise;
      on a scored face the display flag shows the smiling test. */
  lemma StepLaugh(cfg: DetectorConfig, s: DetectorState, res: FaceLandmarkerResult, now: int)
    ensures Step(cfg, s, res, now).laugh
        <==> Scored(res) && Smiling(cfg, SmileScore(res.faceBlendshapes[0].categories)) && CooledDown(cfg, s, now)
    ensures Step(cfg, s, res, now).state.lastLaughTime
         == if Step(cfg, s, res, now).laugh then now else s.lastLaughTime
    ensures Scored(res) ==> Step(cfg, s, res, now).state.isSmiling
                            == Smiling(cfg, SmileScore(res.faceBlendshapes[0].categories))
  {
  }

  /** A frame without a face clears the smiling flag, reports nothing and keeps the laugh time. */
  lemma NoFaceFrame(cfg: DetectorConfig, s: DetectorState, res: FaceLandmarkerResult, now: int)
    requires res.faceCount == 0
    ensures Step(cfg, s, res, now) == FrameOutcome(DetectorState(s.lastLaughTime, false), false)
  {
  }

  /** A face without blendshapes changes nothing and reports nothing. */
  lemma UnscoredFaceFrame(cfg: DetectorConfig, s: DetectorState, res: FaceLandmarkerResult, now: int)
    requires res.faceCount > 0 && |res.faceBlendshapes| == 0
    ensures Step(cfg, s, res, now) == FrameOutcome(s, false)
  {
  }

  /** A score equal to the threshold is not a smile; an elapsed time equal to the cooldown is not enough. */
  lemma StrictBoundaries(cfg: DetectorConfig, s: DetectorState, cats: seq<Category>, now: int)
    requires SmileScore(cats) == cfg.laughThreshold || now - s.lastLaughTime == cfg.cooldownPeriod
    ensures !Step(cfg, s, FaceLandmarkerResult(1, [Classifications(cats)]), now).laugh
    ensures Step(cfg, s, FaceLandmarkerResult(1, [Classifications(cats)]), now).state.lastLaughTime == s.lastLaughTime
  {
  }

  /** The laugh times a run of frames reports, in order. */
  function Emissions(cfg: DetectorConfig, s: DetectorState, ticks: seq<Tick>): (r: seq<int>)
    ensures |r| <= |ticks|
    decreases |ticks|
  {
    if ticks == [] then []
    else
      var o := Step(cfg, s, ticks[0].result, ticks[0].now);
      (if o.laugh then [ticks[0].now] else []) + Emissions(cfg, o.state, ticks[1..])
  }

  /** The detector state after a run of frames. */
  function Final(cfg: DetectorConfig, s: DetectorState, ticks: seq<Tick>): (r: DetectorState)
    ensures r.lastLaughTime == s.lastLaughTime || exists i :: 0 <= i < |ticks| && r.lastLaughTime == ticks[i].now
    decreases |ticks|
  {
    if ticks == [] then s
    else
      assert forall i :: 1 <= i < |ticks| ==> ticks[i] == ticks[1..][i - 1];
      Final(cfg, Step(cfg, s, ticks[0].result, ticks[0].now).state, ticks[1..])
  }

  /** Processing frame `i` moves its laugh, if any, from the laughs still to come to
      the laughs already reported. */
  lemma EmissionsAdvance(cfg: DetectorConfig, s: DetectorState, ticks: seq<Tick>, i: int, done: seq<int>)
    requires 0 <= i < |ticks|
    ensures var o := Step(cfg, s, ticks[i].result, ticks[i].now);
            done + Emissions(cfg, s, ticks[i..])
            == (done + if o.laugh then [ticks[i].now] else []) + Emissions(cfg, o.state, ticks[i + 1..])
  {
    assert ticks[i..][0] == ticks[i];
    assert ticks[i..][1..] == ticks[i + 1..];
  }

  /** Each time in `times` is more than `gap` after the one before it, the first more
      than `gap` after `start`. */
  predicate SpacedAfter(gap: int, start: int, times: seq<int>)
    decreases |times|
  {
    times == [] || (times[0] - start > gap && SpacedAfter(gap, times[0], times[1..]))
  }

  /** Each frame reports at most one laugh, so a run reports at most one per frame;
      the final laugh time is the last one reported, or the initial one when none was. */
  lemma {:induction false} EmissionsPerFrame(cfg: DetectorConfig, s: DetectorState, ticks: seq<Tick>)
    ensures |Emissions(cfg, s, ticks)| <= |ticks|
    ensures Final(cfg, s, ticks).lastLaughTime
         == if Emissions(cfg, s, ticks) == [] then s.lastLaughTime
            else Emissions(cfg, s, ticks)[|Emissions(cfg, s, ticks)| - 1]
    decreases |ticks|
  {
    if ticks != [] {
      var o := Step(cfg, s, ticks[0].result, ticks[0].now);
      EmissionsPerFrame(cfg, o.state, ticks[1..]);
      StepLaugh(cfg, s, ticks[0].result, ticks[0].now);
    }
  }

  /** The cooldown rule over a whole run: whatever the frames and their timestamps,
      the reported laughs are more than the cooldown apart, and the first is more
      than the cooldown after the initial laugh time. */
  lemma {:induction false} EmissionsSpaced(cfg: DetectorConfig, s: DetectorState, ticks: seq<Tick>)
    ensures SpacedAfter(cfg.cooldownPeriod, s.lastLaughTime, Emissions(cfg, s, ticks))
    decreases |ticks|
  {
    if ticks != [] {
      var o := Step(cfg, s, ticks[0].result, ticks[0].now);
      StepLaugh(cfg, s, ticks[0].result, ticks[0].now);
      EmissionsSpaced(cfg, o.state, ticks[1..]);
      var rest := Emissions(cfg, o.state, ticks[1..]);
      if o.laugh {
        assert Emissions(cfg, s, ticks)[1..] == rest;
      } else {
        assert Emissions(cfg, s, ticks) == rest;
      }
    }
  }

  /** Spacing read pairwise: consecutive reported times differ by more than `gap`. */
  lemma {:induction false} SpacedPairwise(gap: int, start: int, times: seq<int>)
    requires SpacedAfter(gap, start, times)
    ensures |times| > 0 ==> times[0] - start > gap
    ensures forall i :: 0 <= i < |times| - 1 ==> times[i + 1] - times[i] > gap
    decreases |times|
  {
    if |times| > 0 {
      SpacedPairwise(gap, times[0], times[1..]);
      forall i | 0 <= i < |times| - 1 ensures times[i + 1] - times[i] > gap {
        if i > 0 { assert times[1..][i - 1] == times[i]; }
      }
    }
  }

  /** From the state the component mounts with (laugh time 0), the first laugh is
      reported only once the clock reads more than the cooldown, and every two
      consecutive laughs are more than the cooldown apart. */
  lemma FreshDetectorSpacing(cfg: DetectorConfig, ticks: seq<Tick>)
    ensures var e := Emissions(cfg, Fresh, ticks);
            (|e| > 0 ==> e[0] > cfg.cooldownPeriod)
            && forall i :: 0 <= i < |e| - 1 ==> e[i + 1] - e[i] > cfg.cooldownPeriod
  {
    EmissionsSpaced(cfg, Fresh, ticks);
    SpacedPairwise(cfg.cooldownPeriod, Fresh.lastLaughTime, Emissions(cfg, Fresh, ticks));
  }

  /** A frame that does not report a laugh, a frame with no face in particular, never
      moves the laugh time, and a frame with no face never sets the smiling flag. */
  lemma QuietFramesKeepLaughTime(cfg: DetectorConfig, s: DetectorState, ticks: seq<Tick>)
    requires forall i :: 0 <= i < |ticks| ==> ticks[i].result.faceCount == 0
    ensures Emissions(cfg, s, ticks) == []
    ensures Final(cfg, s, ticks).lastLaughTime == s.lastLaughTime
    ensures ticks != [] ==> !Final(cfg, s, ticks).isSmiling
    decreases |ticks|
  {
    if ticks != [] {
      QuietFramesKeepLaughTime(cfg, Step(cfg, s, ticks[0].result, ticks[0].now).state, ticks[1..]);
    }
  }

  /** A face smiling with both sides at `score`. */
  function SmilingFace(score: real): FaceLandmarkerResult {
    FaceLandmarkerResult(1, [Classifications([Category(MouthSmileLeft, score), Category(MouthSmileRight, score)])])
  }

  /** With threshold 0.65 and a 1000 ms cooldown and a freshly mounted detector, a
      sustained smile scoring 0.9 seen at 0, 1001, 1500, 2001 and 2002 ms is billed at
      1001 and 2002 only: at 0 ms the elapsed time since the initial laugh time is not
      above the cooldown, at 1500 it is too soon, and at 2001 it equals the cooldown. */
  lemma SampleCooldown()
    ensures var cfg := DetectorConfig(0.65, 1000);
            var f := SmilingFace(0.9);
            Emissions(cfg, Fresh, [Tick(f, 0), Tick(f, 1001), Tick(f, 1500), Tick(f, 2001), Tick(f, 2002)])
            == [1001, 2002]
  {
    var cfg := DetectorConfig(0.65, 1000);
    var f := SmilingFace(0.9);
    DistinctSmileNames();
    SmileScoreOfBoth(f.faceBlendshapes[0].categories, 0, 1);
    var ticks := [Tick(f, 0), Tick(f, 1001), Tick(f, 1500), Tick(f, 2001), Tick(f, 2002)];
    var s1 := DetectorState(0, true);
    var s2 := DetectorState(1001, true);
    var s5 := DetectorState(2002, true);
    assert Emissions(cfg, s5, ticks[5..]) == [];
    assert Emissions(cfg, s2, ticks[4..]) == [2002] by { assert ticks[4..][1..] == ticks[5..]; }
    assert Emissions(cfg, s2, ticks[3..]) == [2002] by { assert ticks[3..][1..] == ticks[4..]; }
    assert Emissions(cfg, s2, ticks[2..]) == [2002] by { assert ticks[2..][1..] == ticks[3..]; }
    assert Emissions(cfg, s1, ticks[1..]) == [1001, 2002] by { assert ticks[1..][1..] == ticks[2..]; }
    assert Emissions(cfg, Fresh, ticks) == [1001, 2002];
  }

  /** A smile scoring exactly the threshold is not billed; one just above it is. */
  lemma SampleThreshold()
    ensures !Step(DetectorConfig(0.65, 1000), DetectorState(0, false), SmilingFace(0.65), 5000).laugh
    ensures Step(DetectorConfig(0.65, 1000), DetectorState(0, false), SmilingFace(0.6500001), 5000).laugh
  {
    DistinctSmileNames();
    SmileScoreOfBoth(SmilingFace(0.65).faceBlendshapes[0].categories, 0, 1);
    SmileScoreOfBoth(SmilingFace(0.6500001).faceBlendshapes[0].categories, 0, 1);
  }

  /** The `detect` callback's state: the `lastLaughTime` ref and the `isSmiling` cell. */
  class LaughDetector {
    const config: DetectorConfig
    var lastLaughTime: int
    var isSmiling: bool

    function State(): DetectorState
      reads this
    {
      DetectorState(lastLaughTime, isSmiling)
    }

    /** Mounting the component: laugh time 0 (not "never"), not smiling. */
    constructor (config: DetectorConfig)
      ensures this.config == config
      ensures State() == Fresh
    {
      this.config := config;
      lastLaughTime := 0;
      isSmiling := false;
    }

    /** The decision part of one `detect` call; `laugh` is whether it called
        `onLaughDetected`, which it does at most once per frame. */
    method Detect(res: FaceLandmarkerResult, now: int) returns (laugh: bool)
      modifies this
      ensures FrameOutcome(State(), laugh) == Step(config, old(State()), res, now)
    {
      laugh := false;
      if res.faceCount > 0 {
        var currentSmiling := false;
        if |res.faceBlendshapes| > 0 {
          var blendShapes := res.faceBlendshapes[0].categories;
          var smileLeft := CategoryScore(blendShapes, MouthSmileLeft);
          var smileRight := CategoryScore(blendShapes, MouthSmileRight);
          var averageSmile := (smileLeft + smileRight) / 2.0;
          currentSmiling := averageSmile > config.laughThreshold;
          if currentSmiling != isSmiling {
            isSmiling := currentSmiling;
          }
          if currentSmiling && now - lastLaughTime > config.cooldownPeriod {
            lastLaughTime := now;
            laugh := true;
          }
        }
      } else {
        if isSmiling {
          isSmiling := false;
        }
      }
    }
  }
}
