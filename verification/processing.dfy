/**
 The analysis pipeline of the processing screen: analyse the photo,
 score what was seen, make the thumbnail, then hand a draft record to the
 result screen. Before each stage, and before navigating or reporting an
 error, the pipeline checks that the screen is still mounted.

 The vision and scoring services are functions from their input to an
 outcome; the clock is a parameter. The moment the screen unmounts is
 given as the number of awaited stages that completed before it did.
 */
module Processing {
  import opened Wrappers
  import opened ScanTypes

  const AnalyzingStatus: string := "Analyzing image with AI..."
  const ScoringStatus: string := "Calculating sustainability score..."
  const ThumbnailStatus: string := "Processing image..."
  const FailedStatus: string := "Processing failed"

  /** Shown when a stage throws something that is not an `Error`. */
  const DefaultError: string := "Failed to process image"

  /** What a failing stage throws: an `Error` with its message, or any other value. */
  datatype Thrown = ErrorWithMessage(message: string) | NonErrorValue

  /** The record handed to the result screen. */
  datatype Draft = Draft(context: ScanContext, score: SustainabilityScore, action: Action, timestamp: int)

  /** One observable step of the pipeline, in order. */
  datatype Step =
    | StatusSet(status: string)
    | AnalyzeCalled(uri: string)
    | ScoreCalled(context: ScanContext)
    | ThumbnailCalled(uri: string)
    | NavigatedToResult(draft: Draft)
    | ErrorShown(message: string)

  /** Some step navigates to the result screen. */
  predicate Navigates(steps: seq<Step>) {
    exists i :: 0 <= i < |steps| && steps[i].NavigatedToResult?
  }

  /** The steps taken and whether the screen has navigated away. */
  datatype Run = Run(navigated: bool, steps: seq<Step>)

  /**
   Whether the screen is still mounted once `k` stages have completed.
   `unmountAfter == Some(u)` means it unmounted after `u` completed stages;
   `None` means it stayed mounted throughout.
   */
  predicate Active(unmountAfter: Option<nat>, k: nat) {
    unmountAfter.None? || k < unmountAfter.value
  }

  /** `generateThumbnail`: no resizing yet, the thumbnail is the image itself. */
  function GenerateThumbnail(uri: string): (thumb: string)
    ensures thumb == uri
  {
    uri
  }

  /** The message the error view shows for a thrown value. */
  function ErrorMessage(e: Thrown): (msg: string)
    ensures e.ErrorWithMessage? ==> msg == e.message
    ensures e.NonErrorValue? ==> msg == DefaultError
  {
    match e
    case ErrorWithMessage(m) => m
    case NonErrorValue => DefaultError
  }

  /** The `catch` block: report the failure, but only while still mounted. */
  function Fail(e: Thrown, active: bool): (steps: seq<Step>)
    ensures active ==> steps == [ErrorShown(ErrorMessage(e)), StatusSet(FailedStatus)]
    ensures !active ==> steps == []
  {
    if active then [ErrorShown(ErrorMessage(e)), StatusSet(FailedStatus)] else []
  }

  /** The draft: the analysed context with both image fields set, the score, `consumed`, and the time. */
  function MakeDraft(context: ScanContext, uri: string, thumb: string, score: SustainabilityScore, nowMs: int): Draft {
    Draft(context.(image := Some(uri), image_thumb := Some(thumb)), score, Consumed, nowMs)
  }

  /**
   `processImage`: the three stages in order, each preceded by a mounted
   check and a status update; navigation at most once, while mounted; a
   failing stage skips everything after it and is reported while mounted.
   */
  function ProcessImage(uri: string, navigated: bool, unmountAfter: Option<nat>,
                        analyze: string -> Result<ScanContext, Thrown>,
                        scoreOf: ScanContext -> Result<SustainabilityScore, Thrown>,
                        nowMs: int): (r: Run)
    ensures r.navigated <==> navigated || Navigates(r.steps)
    ensures navigated ==> !Navigates(r.steps)
    ensures !Active(unmountAfter, 0) ==> r.steps == []
  {
    if !Active(unmountAfter, 0) then Run(navigated, [])
    else
      var s0 := [StatusSet(AnalyzingStatus), AnalyzeCalled(uri)];
      match analyze(uri)
      case Failure(e) => Run(navigated, s0 + Fail(e, Active(unmountAfter, 1)))
      case Success(context) =>
        if !Active(unmountAfter, 1) then Run(navigated, s0)
        else
          var s1 := s0 + [StatusSet(ScoringStatus), ScoreCalled(context)];
          match scoreOf(context)
          case Failure(e) => Run(navigated, s1 + Fail(e, Active(unmountAfter, 2)))
          case Success(score) =>
            if !Active(unmountAfter, 2) then Run(navigated, s1)
            else
              var s2 := s1 + [StatusSet(ThumbnailStatus), ThumbnailCalled(uri)];
              var thumb := GenerateThumbnail(uri);
              var draft := MakeDraft(context, uri, thumb, score, nowMs);
              if !navigated && Active(unmountAfter, 3) then
                var steps := s2 + [NavigatedToResult(draft)];
                assert steps[|s2|].NavigatedToResult?;
                Run(true, steps)
              else Run(navigated, s2)
  }

  /** The full run of a pipeline where both services succeed and the screen stays mounted. */
  lemma HappyPath(uri: string, analyze: string -> Result<ScanContext, Thrown>,
                  scoreOf: ScanContext -> Result<SustainabilityScore, Thrown>, nowMs: int)
    requires analyze(uri).Success? && scoreOf(analyze(uri).value).Success?
    ensures var context := analyze(uri).value;
      var score := scoreOf(context).value;
      ProcessImage(uri, false, None, analyze, scoreOf, nowMs)
        == Run(true, [StatusSet(AnalyzingStatus), AnalyzeCalled(uri),
                      StatusSet(ScoringStatus), ScoreCalled(context),
                      StatusSet(ThumbnailStatus), ThumbnailCalled(uri),
                      NavigatedToResult(Draft(context.(image := Some(uri), image_thumb := Some(uri)), score, Consumed, nowMs))])
  {
  }

  /** `u1` unmounts no later than `u2` (`None` never unmounts). */
  predicate NoLater(u1: Option<nat>, u2: Option<nat>) {
    u2.None? || (u1.Some? && u1.value <= u2.value)
  }

  /**
   Unmounting only cuts the run short: what an earlier unmount does is a
   prefix of what a later one (or none) does, so nothing happens after
   the screen goes away that would not have happened anyway.
   */
  lemma EarlierUnmountIsPrefix(uri: string, navigated: bool, u1: Option<nat>, u2: Option<nat>,
                               analyze: string -> Result<ScanContext, Thrown>,
                               scoreOf: ScanContext -> Result<SustainabilityScore, Thrown>, nowMs: int)
    requires NoLater(u1, u2)
    ensures ProcessImage(uri, navigated, u1, analyze, scoreOf, nowMs).steps
         <= ProcessImage(uri, navigated, u2, analyze, scoreOf, nowMs).steps
  {
    assert forall k: nat :: Active(u1, k) ==> Active(u2, k);
  }

  /** The completed-stage count at which a step is guarded by the mounted check, if it is a stage call or navigation. */
  function Checkpoint(s: Step): Option<nat> {
    match s
    case AnalyzeCalled(_) => Some(0)
    case ScoreCalled(_) => Some(1)
    case ThumbnailCalled(_) => Some(2)
    case NavigatedToResult(_) => Some(3)
    case _ => None
  }

  /** No stage starts, and no navigation happens, once the screen has unmounted. */
  lemma NothingStartsAfterUnmount(uri: string, navigated: bool, unmountAfter: Option<nat>,
                                  analyze: string -> Result<ScanContext, Thrown>,
                                  scoreOf: ScanContext -> Result<SustainabilityScore, Thrown>, nowMs: int)
    ensures var steps := ProcessImage(uri, navigated, unmountAfter, analyze, scoreOf, nowMs).steps;
      forall i :: 0 <= i < |steps| && Checkpoint(steps[i]).Some? ==> Active(unmountAfter, Checkpoint(steps[i]).value)
  {
  }

  /**
   The stages run in order on each other's results: scoring is called
   only on the context analysis returned, and only after it; the
   thumbnail only after scoring succeeded.
   */
  lemma StagesInOrder(uri: string, navigated: bool, unmountAfter: Option<nat>,
                      analyze: string -> Result<ScanContext, Thrown>,
                      scoreOf: ScanContext -> Result<SustainabilityScore, Thrown>, nowMs: int)
    ensures var steps := ProcessImage(uri, navigated, unmountAfter, analyze, scoreOf, nowMs).steps;
      && (forall i :: 0 <= i < |steps| && steps[i].ScoreCalled? ==>
            && analyze(uri) == Success(steps[i].context)
            && i >= 2 && steps[1] == AnalyzeCalled(uri))
      && (forall i :: 0 <= i < |steps| && steps[i].ThumbnailCalled? ==>
            && steps[i].uri == uri
            && analyze(uri).Success? && scoreOf(analyze(uri).value).Success?
            && i >= 4 && steps[3] == ScoreCalled(analyze(uri).value))
  {
  }

  /**
   The draft handed to the result screen is the analysed context with
   image and thumbnail both the photo, the stage-two score, `consumed`,
   and the current time.
   */
  lemma DraftContents(uri: string, navigated: bool, unmountAfter: Option<nat>,
                      analyze: string -> Result<ScanContext, Thrown>,
                      scoreOf: ScanContext -> Result<SustainabilityScore, Thrown>, nowMs: int)
    ensures var steps := ProcessImage(uri, navigated, unmountAfter, analyze, scoreOf, nowMs).steps;
      forall i :: 0 <= i < |steps| && steps[i].NavigatedToResult? ==>
        var d := steps[i].draft;
        && analyze(uri).Success? && scoreOf(analyze(uri).value).Success?
        && d.context == analyze(uri).value.(image := Some(uri), image_thumb := Some(uri))
        && d.context.image_thumb == d.context.image
        && d.score == scoreOf(analyze(uri).value).value
        && d.action == Consumed
        && d.timestamp == nowMs
        && i == |steps| - 1
  {
  }

  /**
   A failing analysis stops the pipeline: scoring and the thumbnail never
   start, and the error is reported exactly when the screen is still
   mounted.
   */
  lemma AnalysisFailureStops(uri: string, navigated: bool, unmountAfter: Option<nat>,
                             analyze: string -> Result<ScanContext, Thrown>,
                             scoreOf: ScanContext -> Result<SustainabilityScore, Thrown>, nowMs: int)
    requires Active(unmountAfter, 0) && analyze(uri).Failure?
    ensures var r := ProcessImage(uri, navigated, unmountAfter, analyze, scoreOf, nowMs);
      && r.navigated == navigated
      && (Active(unmountAfter, 1) ==>
            r.steps == [StatusSet(AnalyzingStatus), AnalyzeCalled(uri),
                        ErrorShown(ErrorMessage(analyze(uri).error)), StatusSet(FailedStatus)])
      && (!Active(unmountAfter, 1) ==> r.steps == [StatusSet(AnalyzingStatus), AnalyzeCalled(uri)])
  {
  }

  /** A failing scoring stage skips the thumbnail and navigation, and is reported while mounted. */
  lemma ScoringFailureStops(uri: string, navigated: bool, unmountAfter: Option<nat>,
                            analyze: string -> Result<ScanContext, Thrown>,
                            scoreOf: ScanContext -> Result<SustainabilityScore, Thrown>, nowMs: int)
    requires Active(unmountAfter, 1) && analyze(uri).Success? && scoreOf(analyze(uri).value).Failure?
    ensures var r := ProcessImage(uri, navigated, unmountAfter, analyze, scoreOf, nowMs);
      && r.navigated == navigated
      && |r.steps| >= 4
      && r.steps[3] == ScoreCalled(analyze(uri).value)
      && (Active(unmountAfter, 2) <==> ErrorShown(ErrorMessage(scoreOf(analyze(uri).value).error)) in r.steps)
      && (forall i :: 0 <= i < |r.steps| ==> !r.steps[i].ThumbnailCalled? && !r.steps[i].NavigatedToResult?)
  {
  }

  /** Navigation happens at most once: a second run on a screen that already navigated does not navigate again. */
  lemma NavigatesAtMostOnce(uri: string, unmountAfter: Option<nat>,
                            analyze: string -> Result<ScanContext, Thrown>,
                            scoreOf: ScanContext -> Result<SustainabilityScore, Thrown>, nowMs: int)
    ensures var first := ProcessImage(uri, false, unmountAfter, analyze, scoreOf, nowMs);
      var second := ProcessImage(uri, first.navigated, unmountAfter, analyze, scoreOf, nowMs);
      && (forall i, j :: 0 <= i < j < |first.steps| ==> !(first.steps[i].NavigatedToResult? && first.steps[j].NavigatedToResult?))
      && (first.navigated ==> !Navigates(second.steps))
  {
  }
}
