# Optical answer-sheet reader: a Dafny model of its answer logic

The application photographs a printed multiple-choice answer sheet. It cuts a fixed
answer area out of the photo and thresholds it. Then it traces contours, keeps the
bounding rectangles whose width and height both lie in 25..70 pixels, and orders them
top to bottom, then left to right. It turns each rectangle into one answer ("A".."E",
or "Boş" for no answer) by where the rectangle's centre falls. The answer list is
saved as an XML document of numbered `Question` elements. The answer key and the
user's answers are then compared into a (correct, wrong, empty) tally.

This project models the integer and list logic between the OpenCV calls and the
Android UI, all of it in `MainActivity.kt`, and proves properties of it:

- `int32.dfy` (`Int32`): Kotlin `Int` arithmetic. Sums wrap modulo 2^32 and `/` truncates toward zero.
- `regions.dfy` (`Regions`): `findAnswerBoxes`. It runs the size-window filter, then a stable
  (y, x) sort. The model proves the output is exactly the in-window rectangles (a
  permutation), sorted, with ties kept in input order. It also proves that these facts
  determine the output uniquely.
- `classifier.dfy` (`Classifier`): `detectAnswer`, the position policy. Each option is
  characterised by the interval its column covers. Two consequences are proved: a box at
  x >= 0 never yields "A" or "B" (because `width / 2 >= 2 * (width / 5)`), and a box whose
  x is at least its own width always yields "Boş".
- `store.dfy` (`ResultStore`): `saveAnswersToXml` and `loadAnswersFromXml`. A document is
  modelled as its sequence of (number, text) records. The private files directory is a
  class holding a map from file name to document. A missing file loads as the empty list.
- `scorer.dfy` (`Scorer`): `compareAnswers`, a left fold into a tally. The model states
  each count as the number of key indices with that verdict.
- `pipeline.dfy` (`Pipeline`): `processOpticalForm` and `processAndSaveAnswers`.
- `wrappers.dfy` (`Wrappers`): `Option`, `Result` and the pipeline's error kinds.

Three behaviours of the code are kept as written:

- `findAnswerBoxes` fails only when contour tracing returns no contours at all. A
  non-empty contour list whose rectangles are all rejected is not an error: it gives an
  empty answer list, and that list is then saved (`Regions.AllRejectedGivesNoBoxes`).
- `detectAnswer` does not use a centre relative to the box. It takes the centre in the
  coordinates of the whole answer area (`rect.x + rect.width / 2`) and divides it by the
  box's own column width (`rect.width / 5`).
- `Mat(mat, Rect(0, 540, 1190, 1050))` throws when the photo is smaller than the answer
  area. The model keeps this as its own error, `RegionOutsideImage`, raised after the
  empty-image check.

Inputs from outside the model become parameters:

- The decoded photo is represented only by its size (`Pipeline.Image`).
- The output of `Imgproc.findContours` followed by `Imgproc.boundingRect` is the list of
  rectangles passed to `FindAnswerBoxes`, in emission order.
- The files directory is a `ResultStore.FilesDir` object.

## Model

| member | source | states |
|---|---|---|
| Int32.Wrap | src/main/java/com/yaren/optikformreader/MainActivity.kt:150 | a 32-bit `Int` sum is the exact sum when it fits and is congruent to it modulo 2^32 otherwise |
| Int32.Quot | src/main/java/com/yaren/optikformreader/MainActivity.kt:147-153 | Kotlin's `/` by a positive divisor rounds toward zero: q*b <= a < q*b+b for a >= 0, and q*b-b < a <= q*b for a < 0 |
| Int32.QuotIs | src/main/java/com/yaren/optikformreader/MainActivity.kt:153 | the truncated quotient equals k exactly when a lies in k's interval; for k = 0 that interval is (-b, b) |
| Regions.KeepInWindow | src/main/java/com/yaren/optikformreader/MainActivity.kt:139-141 | every kept rectangle has 25 <= width <= 70 and 25 <= height <= 70, and the kept rectangles are a sub-multiset of the input (nothing is added) |
| Regions.KeepInWindowExact | src/main/java/com/yaren/optikformreader/MainActivity.kt:139-141 | each rectangle's multiplicity in the output equals its multiplicity in the input if it is in the window, and 0 otherwise |
| Regions.SortByPosition | src/main/java/com/yaren/optikformreader/MainActivity.kt:142 | the sorted list has the same length and the same multiset of rectangles as its input |
| Regions.SortByPositionSorted | src/main/java/com/yaren/optikformreader/MainActivity.kt:142 | the sort returns a permutation of its input ordered by y ascending, then x ascending |
| Regions.SortByPositionStable | src/main/java/com/yaren/optikformreader/MainActivity.kt:142 | for every (y, x), the rectangles with that key appear in the output in their input order |
| Regions.StableSortUnique | src/main/java/com/yaren/optikformreader/MainActivity.kt:142 | any sorted sequence that agrees with the input on every key's subsequence equals the model's sort, so any stable (y, x) sort returns it |
| Regions.FindAnswerBoxes | src/main/java/com/yaren/optikformreader/MainActivity.kt:131-143 | fails with ContoursNotFound exactly when the contour list is empty; otherwise every returned box is in the window and no more boxes come out than contours went in |
| Regions.FindAnswerBoxesContents | src/main/java/com/yaren/optikformreader/MainActivity.kt:139-142 | for a non-empty contour list, the boxes are exactly the in-window rectangles with their multiplicities, sorted by (y, x), and ties keep contour order |
| Regions.AllRejectedGivesNoBoxes | src/main/java/com/yaren/optikformreader/MainActivity.kt:135-142 | a non-empty contour list whose rectangles are all outside the window gives an empty box list, not an error |
| Classifier.ColumnWidth | src/main/java/com/yaren/optikformreader/MainActivity.kt:145-147 | the column width w satisfies 5*w <= width < 5*w + 5, so five columns of w cover the box's width up to a remainder below 5 |
| Classifier.CentreX | src/main/java/com/yaren/optikformreader/MainActivity.kt:150 | the centre is `x + width / 2` whenever that fits in 32 bits |
| Classifier.DetectAnswer | src/main/java/com/yaren/optikformreader/MainActivity.kt:144-157 | the result is always one of "A".."E" or "Boş", for every box at least 5 pixels wide |
| Classifier.LabelNotEmpty | src/main/java/com/yaren/optikformreader/MainActivity.kt:146-156 | no label is the empty string |
| Classifier.WindowedColumnWidth | src/main/java/com/yaren/optikformreader/MainActivity.kt:147 | for any box that passes the size window, the column width is between 5 and 14, so the division is defined |
| Classifier.DetectAnswerOption | src/main/java/com/yaren/optikformreader/MainActivity.kt:146-156 | option k is returned if and only if the centre lies in [k*w, k*w + w); for k = 0 the interval is (-w, w) because of truncation |
| Classifier.DetectAnswerBlank | src/main/java/com/yaren/optikformreader/MainActivity.kt:153-156 | "Boş" is returned if and only if the centre is <= -w or >= 5*w |
| Classifier.DetectNeverFirstTwo | src/main/java/com/yaren/optikformreader/MainActivity.kt:150-156 | a box with x >= 0 never gets "A" or "B", even when the 32-bit centre wraps |
| Classifier.DetectBeyondOwnWidth | src/main/java/com/yaren/optikformreader/MainActivity.kt:150-156 | a box whose x is at least its own width gets "Boş" |
| ResultStore.LoadAnswers | src/main/java/com/yaren/optikformreader/MainActivity.kt:229-237 | a missing file loads as the empty list; an existing document loads as the texts of its Question records, one per record, in document order |
| ResultStore.QuestionTexts | src/main/java/com/yaren/optikformreader/MainActivity.kt:234-235 | one answer per Question record, answer i being the text of record i |
| ResultStore.BuildQuestions | src/main/java/com/yaren/optikformreader/MainActivity.kt:200-205 | one Question per answer in list order; record i has number i+1 and text answers[i]; reading the texts back gives the list again |
| ResultStore.WellNumberedDeterminedByTexts | src/main/java/com/yaren/optikformreader/MainActivity.kt:234-235 | two documents numbered 1..n with the same texts are equal, so the saved document is the only well-numbered one that loads as the list |
| ResultStore.FilesDir.LoadAnswersFromXml | src/main/java/com/yaren/optikformreader/MainActivity.kt:229-237 | a missing file gives []; an existing file gives the texts of its stored Question records, one per record, in document order |
| ResultStore.FilesDir.SaveAnswersToXml | src/main/java/com/yaren/optikformreader/MainActivity.kt:192-212 | creates or overwrites one file with a document numbered 1..n; loading it gives the answers back; every other file is unchanged |
| Scorer.TallyUpTo | src/main/java/com/yaren/optikformreader/MainActivity.kt:218-224 | after n steps of the fold, the three counts sum to n |
| Scorer.VerdictAt | src/main/java/com/yaren/optikformreader/MainActivity.kt:219-223 | a key index is empty exactly when the user list is too short or has "" there; otherwise it is correct exactly when the strings are equal and wrong exactly when they differ |
| Scorer.Count | src/main/java/com/yaren/optikformreader/MainActivity.kt:220-222 | one step of the fold adds one to the count its verdict names and leaves the other two unchanged |
| Scorer.CompareLists | src/main/java/com/yaren/optikformreader/MainActivity.kt:218-224 | correct + wrong + empty equals the length of the key |
| Scorer.TallyUpToCounts | src/main/java/com/yaren/optikformreader/MainActivity.kt:219-223 | after n steps, each count equals the number of indices below n with that verdict |
| Scorer.CompareListsCounts | src/main/java/com/yaren/optikformreader/MainActivity.kt:219-223 | correct counts key indices with a non-empty equal user answer; wrong counts those with a non-empty different answer; empty counts those past the user list's end or with "" |
| Scorer.UserTailIgnored | src/main/java/com/yaren/optikformreader/MainActivity.kt:218 | user answers past the end of the key do not change the tally |
| Scorer.MissingAnswersAreEmpty | src/main/java/com/yaren/optikformreader/MainActivity.kt:220 | a shorter user list scores each missing question as empty and the rest as for the matching prefix of the key |
| Scorer.EmptyUserAllEmpty | src/main/java/com/yaren/optikformreader/MainActivity.kt:220 | against an empty user list every key question is empty |
| Scorer.SelfComparison | src/main/java/com/yaren/optikformreader/MainActivity.kt:220-222 | a list compared with itself has no wrong answers, and its empty count is the number of "" entries |
| Scorer.ScoringExamples | src/main/java/com/yaren/optikformreader/MainActivity.kt:218-224 | key [A,B,C,D,E] against [A,C,C,D,""] gives (3, 1, 1); "Boş" is scored as an ordinary answer |
| Scorer.CompareAnswers | src/main/java/com/yaren/optikformreader/MainActivity.kt:214-227 | the result is the fold over the loaded key and the loaded user answers, so it covers every key question; a missing key gives (0, 0, 0); a missing user file makes every key question empty |
| Pipeline.AnswersOf | src/main/java/com/yaren/optikformreader/MainActivity.kt:106-108 | one answer per box, in box order, answer i being the classification of box i |
| Pipeline.IsEmpty | src/main/java/com/yaren/optikformreader/MainActivity.kt:91 | a photo is empty exactly when it holds no pixels (rows * cols == 0) |
| Pipeline.AreaFits | src/main/java/com/yaren/optikformreader/MainActivity.kt:95-96 | the answer area can be cut out exactly when every pixel of Rect(0, 540, 1190, 1050) lies in the photo |
| Pipeline.ProcessOpticalForm | src/main/java/com/yaren/optikformreader/MainActivity.kt:87-109 | an empty image fails with ImageNotReadable before any detection; then an area that does not fit fails with RegionOutsideImage; then an empty contour list fails with ContoursNotFound; otherwise it succeeds and answer i is the classification of sorted box i |
| Pipeline.ProcessOpticalFormAnswers | src/main/java/com/yaren/optikformreader/MainActivity.kt:99-108 | on success there is one answer per in-window contour rectangle, each answer is a non-empty label, and an all-rejected contour list gives [] |
| Pipeline.ProcessedSelfComparison | src/main/java/com/yaren/optikformreader/MainActivity.kt:106-108 | a processed answer list compared with itself scores every question correct |
| Pipeline.ProcessAndSaveAnswers | src/main/java/com/yaren/optikformreader/MainActivity.kt:77-85 | saves only when processing succeeds, and then the file exists, holds one Question per answer numbered 1..n (also for an empty list), and loads as the processed answers; other files are unchanged; on failure no file changes |

## Left out

- Image decoding, grayscale conversion, Gaussian blur, thresholding and Canny edge detection (lines 112-129) are OpenCV pixel and floating-point work. Their outputs are not modelled; the Canny image is computed and never used.
- Contour tracing and bounding rectangles (lines 133, 140) are library calls. Their result is the `contours` parameter.
- Drawing the detected boxes onto the photo (lines 101-103), bitmap conversion, saving debug images and updating the image view (lines 161-190) are display side effects. None of them affects the answers.
- Real XML text is not modelled: building, indentation, escaping, serialisation and parsing (lines 194-197, 207-211, 233). A document is its sequence of (number, text) records, and a file write that fails for storage reasons is not modelled.
- `ResultStore.LoadAnswers`: the model assumes the parser returns, unchanged, the texts that were saved. XML escaping and whitespace normalisation are outside the model.
- The activity lifecycle, OpenCV loader check, buttons, intents, the `onActivityResult` dispatch and toasts (lines 32-75, 239-241) are platform glue. The two file names the dispatch uses are kept as constants.
- `Scorer.CompareLists`: the Kotlin `Int` counters could wrap after 2^31 questions. The model uses unbounded counts.
- The `Mat(contourMat, rect)` view inside `detectAnswer` (line 145) would throw for a rectangle outside the thresholded image. Rectangles from `boundingRect` always lie inside it, so the model only uses the fact that the view has `rect.width` columns.
