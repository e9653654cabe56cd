/**
 * The form pipeline (`processOpticalForm`) and the capture handler that saves its
 * result (`processAndSaveAnswers`). Image decoding, preprocessing and contour tracing
 * are OpenCV calls: the model receives the decoded image's size and the bounding
 * rectangles the contour tracer reports for the preprocessed answer area.
 */
module Pipeline {
  import opened Wrappers
  import opened Regions
  import opened Classifier
  import opened ResultStore
  import Scorer

  /** The size of the decoded photo (`Mat`), in pixels. */
  datatype Image = Image(rows: nat, cols: nat)

  /** `Mat.empty()`: the image holds no pixels. */
  predicate IsEmpty(image: Image): (empty: bool)
    ensures empty <==> image.rows * image.cols == 0
  {
    image.rows == 0 || image.cols == 0
  }

  /** The fixed answer area `Rect(0, 540, 1190, 1050)` cut out of the photo. */
  const AreaX: nat := 0
  const AreaY: nat := 540
  const AreaWidth: nat := 1190
  const AreaHeight: nat := 1050

  /** The pixel at (`row`, `col`) exists in the photo. */
  predicate InPhoto(image: Image, row: int, col: int) {
    0 <= row < image.rows && 0 <= col < image.cols
  }

  /** The pixel at (`row`, `col`) belongs to the answer area. */
  predicate InArea(row: int, col: int) {
    AreaY <= row < AreaY + AreaHeight && AreaX <= col < AreaX + AreaWidth
  }

  /** `Mat(mat, roiRect)` succeeds only when every pixel of the answer area lies in the photo. */
  predicate AreaFits(image: Image): (fits: bool)
    ensures fits <==> forall row, col :: InArea(row, col) ==> InPhoto(image, row, col)
  {
    assert InArea(AreaY + AreaHeight - 1, AreaX + AreaWidth - 1);
    AreaX + AreaWidth <= image.cols && AreaY + AreaHeight <= image.rows
  }

  /** The answers of the detected boxes, one per box, in box order. */
  function AnswersOf(boxes: seq<Rect>): (answers: seq<string>)
    requires forall i :: 0 <= i < |boxes| ==> InWindow(boxes[i])
    ensures |answers| == |boxes|
    ensures forall i :: 0 <= i < |boxes| ==> InWindow(boxes[i]) && answers[i] == DetectAnswer(boxes[i])
  {
    if boxes == [] then []
    else
      WindowedColumnWidth(boxes[0]);
      [DetectAnswer(boxes[0])] + AnswersOf(boxes[1..])
  }

  /**
   * `processOpticalForm`: fails on an empty photo, then on an answer area that does not
   * fit, then on an empty contour list; otherwise answer i is `detectAnswer` of box i of
   * `findAnswerBoxes`.
   */
  function ProcessOpticalForm(image: Image, contours: seq<Rect>): (r: Result<seq<string>, FormError>)
    ensures IsEmpty(image) ==> r == Failure(ImageNotReadable)
    ensures !IsEmpty(image) && !AreaFits(image) ==> r == Failure(RegionOutsideImage)
    ensures !IsEmpty(image) && AreaFits(image) && contours == [] ==> r == Failure(ContoursNotFound)
    ensures !IsEmpty(image) && AreaFits(image) && contours != [] ==> r.Success?
    ensures r.Success? ==>
      var boxes := FindAnswerBoxes(contours).value;
      |r.value| == |boxes| && forall i :: 0 <= i < |boxes| ==> InWindow(boxes[i]) && r.value[i] == DetectAnswer(boxes[i])
  {
    if IsEmpty(image) then Failure(ImageNotReadable)
    else if !AreaFits(image) then Failure(RegionOutsideImage)
    else
      match FindAnswerBoxes(contours)
      case Failure(e) => Failure(e)
      case Success(boxes) =>
        FindAnswerBoxesContents(contours);
        Success(AnswersOf(boxes))
  }

  /**
   * On success there is one answer per in-window contour rectangle, every answer is one of
   * the labels, and an all-rejected contour list gives an empty answer list.
   */
  lemma {:induction false} ProcessOpticalFormAnswers(image: Image, contours: seq<Rect>)
    requires !IsEmpty(image) && AreaFits(image) && contours != []
    ensures ProcessOpticalForm(image, contours).Success?
    ensures |ProcessOpticalForm(image, contours).value| == |KeepInWindow(contours)|
    ensures forall i :: 0 <= i < |ProcessOpticalForm(image, contours).value| ==>
      IsLabel(ProcessOpticalForm(image, contours).value[i]) && ProcessOpticalForm(image, contours).value[i] != ""
    ensures (forall i :: 0 <= i < |contours| ==> !InWindow(contours[i])) ==>
      ProcessOpticalForm(image, contours).value == []
  {
    var answers := ProcessOpticalForm(image, contours).value;
    var boxes := FindAnswerBoxes(contours).value;
    assert |answers| == |boxes| == |KeepInWindow(contours)|;
    forall i | 0 <= i < |answers| ensures IsLabel(answers[i]) && answers[i] != "" {
      assert InWindow(boxes[i]) && answers[i] == DetectAnswer(boxes[i]);
      LabelNotEmpty(answers[i]);
    }
    if forall i :: 0 <= i < |contours| ==> !InWindow(contours[i]) {
      AllRejectedGivesNoBoxes(contours);
    }
  }

  /**
   * Comparing a processed form's answers with themselves scores every question correct:
   * the classifier never produces the empty string.
   */
  lemma {:induction false} ProcessedSelfComparison(image: Image, contours: seq<Rect>)
    requires !IsEmpty(image) && AreaFits(image) && contours != []
    ensures var answers := ProcessOpticalForm(image, contours).value;
      Scorer.CompareLists(answers, answers) == Scorer.Tally(|answers|, 0, 0)
  {
    var answers := ProcessOpticalForm(image, contours).value;
    ProcessOpticalFormAnswers(image, contours);
    Scorer.SelfComparison(answers);
    assert (set i: nat | i < |answers| && answers[i] == "") == {};
  }

  /**
   * `processAndSaveAnswers`: runs the pipeline and, only when it succeeds, saves the answers
   * under `fileName`. A failure leaves every file as it was.
   */
  method ProcessAndSaveAnswers(dir: FilesDir, image: Image, contours: seq<Rect>, fileName: string)
    returns (saved: bool)
    modifies dir
    ensures saved == ProcessOpticalForm(image, contours).Success?
    ensures saved ==> fileName in dir.files && WellNumbered(dir.files[fileName])
    ensures saved ==> |dir.files[fileName]| == |ProcessOpticalForm(image, contours).value|
    ensures saved ==> dir.LoadAnswersFromXml(fileName) == ProcessOpticalForm(image, contours).value
    ensures saved ==> forall other :: other != fileName ==> dir.Open(other) == old(dir.Open(other))
    ensures !saved ==> dir.files == old(dir.files)
  {
    var result := ProcessOpticalForm(image, contours);
    if result.Success? {
      dir.SaveAnswersToXml(fileName, result.value);
      saved := true;
    } else {
      saved := false;
    }
  }
}
