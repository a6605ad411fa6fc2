/**
 * `question_generator.py`: the guided questions for one subtopic, read from the model's
 * reply to a prompt that lists the review points.
 */
module QuestionGenerator {
  import opened Text
  import Replies

  /** What `generate_guided_questions` computes around the model call. */
  datatype Guide = Guide(keywordBlock: string, questions: seq<string>)

  /** `generate_guided_questions`, given the model's `reply`: the review points as one
      `- rp` line each, and one question per non-blank reply line. */
  function GenerateGuidedQuestions(reviewPoints: seq<string>, reply: string): (r: Guide)
    ensures Replies.ListsEach(r.keywordBlock, reviewPoints)
    ensures |r.questions| <= |SplitLines(Strip(reply))|
    ensures forall i :: 0 <= i < |r.questions| ==> IsStripped(r.questions[i])
    ensures r.questions == [] <==> Blank(reply)
  {
    Replies.BulletBlockLines(reviewPoints);
    Guide(Replies.BulletBlock(reviewPoints), Replies.SplitReply(reply))
  }
}
