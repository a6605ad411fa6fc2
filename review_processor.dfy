/**
 * `review_processor.py`: the numbered review text put into the keyword prompt, and the
 * key points read from the model's reply.
 */
module ReviewProcessor {
  import opened Common
  import opened Text
  import UtilsIo

  /** `f"리뷰 {idx}: {rev}"`. */
  function ReviewLine(idx: nat, review: string): string {
    "리뷰 " + Decimal(idx) + ": " + review
  }

  /** The line for each review, numbered from 1. */
  function NumberedLines(reviews: seq<string>): (lines: seq<string>)
    ensures |lines| == |reviews|
    ensures forall i :: 0 <= i < |reviews| ==> lines[i] == ReviewLine(i + 1, reviews[i])
  {
    seq(|reviews|, i requires 0 <= i < |reviews| => ReviewLine(i + 1, reviews[i]))
  }

  /** Each line followed by a newline, in order. */
  function Terminated(lines: seq<string>): string
    decreases |lines|
  {
    if lines == [] then "" else Terminated(lines[..|lines| - 1]) + lines[|lines| - 1] + "\n"
  }

  /** What `process_reviews` computes around the model call: the review text placed in
      the prompt (None when no prompt is built and the model is not called), and the
      points parsed from the reply. */
  datatype Outcome = Outcome(reviewsText: Option<string>, points: seq<string>)

  /** `process_reviews`, given the model's `reply`. */
  method ProcessReviews(reviews: seq<string>, reply: string) returns (r: Outcome)
    ensures reviews == [] ==> r == Outcome(None, [])
    ensures reviews != [] ==>
              r.reviewsText == Some(Strip(Terminated(NumberedLines(reviews))))
              && r.points == UtilsIo.ParseList(reply)
  {
    if reviews == [] {
      return Outcome(None, []);
    }
    var reviewsText := "";
    var k := 0;
    while k < |reviews|
      invariant 0 <= k <= |reviews|
      invariant reviewsText == Terminated(NumberedLines(reviews)[..k])
    {
      var lines := NumberedLines(reviews);
      assert lines[..k + 1][..k] == lines[..k] && lines[..k + 1][k] == lines[k];
      reviewsText := reviewsText + ReviewLine(k + 1, reviews[k]) + "\n";
      k := k + 1;
    }
    assert NumberedLines(reviews)[..k] == NumberedLines(reviews);
    return Outcome(Some(Strip(reviewsText)), UtilsIo.ParseList(reply));
  }

  /** The text is the lines joined by newlines, plus a final newline. */
  lemma {:induction false} TerminatedIsJoin(lines: seq<string>)
    requires lines != []
    ensures Terminated(lines) == Join("\n", lines) + "\n"
    decreases |lines|
  {
    var n := |lines| - 1;
    if n > 0 {
      TerminatedIsJoin(lines[..n]);
      JoinSnoc("\n", lines[..n], lines[n]);
      assert lines[..n] + [lines[n]] == lines;
    }
  }

  /** Each line starts with "리뷰 ", then the review's number in decimal, then ": " and
      the review, and the number reads back as the review's position counted from 1. */
  lemma {:induction false} ReviewLineLayout(idx: nat, review: string)
    ensures var line := ReviewLine(idx, review);
            var d := Decimal(idx);
            line[..3] == "리뷰 " && line[3..3 + |d|] == d && line[3 + |d|..5 + |d|] == ": "
            && line[5 + |d|..] == review && DigitsValue(d) == idx
  {
    DigitsValueOfDecimal(idx);
  }

  /** Every numbered line is non-empty, starts with '리' and, when its review holds no
      newline, holds none. */
  lemma {:induction false} NumberedLinesFlat(reviews: seq<string>)
    requires forall i :: 0 <= i < |reviews| ==> '\n' !in reviews[i]
    ensures var lines := NumberedLines(reviews);
            forall k :: 0 <= k < |lines| ==> lines[k] != [] && '\n' !in lines[k] && lines[k][0] == '리'
  {
    var lines := NumberedLines(reviews);
    forall k | 0 <= k < |lines| ensures lines[k] != [] && '\n' !in lines[k] && lines[k][0] == '리' {
      ReviewLineLayout(k + 1, reviews[k]);
      var d := Decimal(k + 1);
      assert lines[k] == "리뷰 " + d + ": " + reviews[k];
      assert forall c :: c in d ==> IsDigit(c);
    }
  }

  /** When no review holds a newline and the last one is non-empty and ends in a
      non-space character, the prompt text is one line per review in input order,
      with no trailing newline. */
  lemma {:induction false} PromptLines(reviews: seq<string>)
    requires reviews != []
    requires forall i :: 0 <= i < |reviews| ==> '\n' !in reviews[i]
    requires var last := reviews[|reviews| - 1]; last != [] && !IsSpace(last[|last| - 1])
    ensures var text := Strip(Terminated(NumberedLines(reviews)));
            text == Join("\n", NumberedLines(reviews)) && Split(text, '\n') == NumberedLines(reviews)
  {
    var lines := NumberedLines(reviews);
    var n := |reviews| - 1;
    TerminatedIsJoin(lines);
    NumberedLinesFlat(reviews);
    assert lines[n][|lines[n]| - 1] == reviews[n][|reviews[n]| - 1];
    JoinEnds(lines);
    StripFinalNewline(Join("\n", lines));
    SplitOfJoin(lines, '\n');
  }
}
