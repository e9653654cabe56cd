/**
 * The position-policy answer classifier (`detectAnswer`). The box is split into five
 * equal columns of width `width / 5`; the option is the column index the box's
 * horizontal centre falls into. The pixels inside the box are never looked at.
 */
module Classifier {
  import opened Int32
  import opened Regions

  /** The options of a question, in column order. */
  const Options: seq<string> := ["A", "B", "C", "D", "E"]

  /** `options.size`: the number of columns a box is split into. */
  const OptionCount: nat := 5

  /** `options.size` is the length of the option list. */
  lemma OptionCountIsLength()
    ensures OptionCount == |Options|
  {
  }

  /** The label given when the column index falls outside the options. */
  const Blank: string := "Boş"

  /** A label `detectAnswer` can produce. */
  predicate IsLabel(s: string) {
    s in Options || s == Blank
  }

  /**
   * `roi.cols() / options.size`: the ROI cut out of the thresholded image by `r` has
   * exactly `r.width` columns.
   */
  function ColumnWidth(r: Rect): (w: int)
    requires 0 <= r.width
    ensures 0 <= w && w * OptionCount <= r.width < w * OptionCount + OptionCount
  {
    Quot(r.width, OptionCount)
  }

  /** `rect.x + rect.width / 2`, a 32-bit sum in the coordinates of the whole ROI image. */
  function CentreX(r: Rect): (c: i32)
    requires 0 <= r.width
    ensures MinI32 <= r.x + r.width / 2 <= MaxI32 ==> c == r.x + r.width / 2
  {
    Wrap(r.x + Quot(r.width, 2))
  }

  /** `detectAnswer`: the option whose column holds the box's centre, or `Blank`. */
  function DetectAnswer(r: Rect): (answer: string)
    requires OptionCount <= r.width
    ensures IsLabel(answer)
  {
    var index := Quot(CentreX(r), ColumnWidth(r));
    if 0 <= index < |Options| then Options[index] else Blank
  }

  /** No label is the empty string, so the scorer never counts a detected answer as empty. */
  lemma LabelNotEmpty(s: string)
    requires IsLabel(s)
    ensures s != ""
  {
  }

  /** Every box that passes the size window has a column width of at least five pixels. */
  lemma WindowedColumnWidth(r: Rect)
    requires InWindow(r)
    ensures 5 <= ColumnWidth(r) <= 14
    ensures OptionCount <= r.width
  {
  }

  /**
   * Option `k` is chosen exactly when the centre lies in column `k` of width
   * `ColumnWidth(r)`; column 0 also takes centres just left of zero, because the
   * division rounds toward zero.
   */
  lemma {:induction false} DetectAnswerOption(r: Rect, k: nat)
    requires OptionCount <= r.width && k < |Options|
    ensures DetectAnswer(r) == Options[k] <==>
      var c, w := CentreX(r), ColumnWidth(r);
      (if k == 0 then -w < c else k * w <= c) && c < k * w + w
  {
    var c, w := CentreX(r), ColumnWidth(r);
    var index := Quot(c, w);
    QuotIs(c, w, k);
    if 0 <= index < |Options| && index != k {
      assert Options[index] != Options[k];
    }
  }

  /** `Blank` is chosen exactly when the centre lies left of column 0 or right of column 4. */
  lemma {:induction false} DetectAnswerBlank(r: Rect)
    requires OptionCount <= r.width
    ensures DetectAnswer(r) == Blank <==>
      var c, w := CentreX(r), ColumnWidth(r);
      c <= -w || |Options| * w <= c
  {
    var c, w := CentreX(r), ColumnWidth(r);
    var index := Quot(c, w);
    if 0 <= index < |Options| {
      assert Options[index] != Blank;
      if c < 0 {
        QuotIs(c, w, 0);
      } else {
        MulMono(index + 1, |Options|, w);
      }
    } else if index < 0 {
      QuotIs(c, w, 0);
    } else {
      MulMono(|Options|, index, w);
    }
  }

  /**
   * For a box at a non-negative x the centre is at least `width / 2 >= 2 * (width / 5)`,
   * or, if the 32-bit sum wraps, far below zero; so the first two options are never chosen.
   */
  lemma DetectNeverFirstTwo(r: Rect)
    requires OptionCount <= r.width
    requires 0 <= r.x
    ensures DetectAnswer(r) != "A" && DetectAnswer(r) != "B"
  {
  }

  /**
   * A box whose left edge lies at or beyond its own width (measured from the ROI's left
   * edge) gets `Blank`, whatever it contains.
   */
  lemma DetectBeyondOwnWidth(r: Rect)
    requires OptionCount <= r.width
    requires r.width <= r.x
    ensures DetectAnswer(r) == Blank
  {
  }
}
