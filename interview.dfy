/**
 * `interview.py`: the interview questions read from the model's reply to a prompt that
 * lists the review points, and the answers the user types to those questions.
 */
module Interview {
  import opened Common
  import opened Text
  import Replies

  /** What `ask_interview_questions` computes around the model call. */
  datatype Questions = Questions(keywordBlock: string, questions: seq<string>)

  /** `ask_interview_questions`, given the model's `reply`: the review points as one
      `- kw` line each for the prompt, and one question per non-blank reply line. */
  function AskInterviewQuestions(reviewPoints: seq<string>, reply: string): (r: Questions)
    ensures Replies.ListsEach(r.keywordBlock, reviewPoints)
    ensures |r.questions| <= |SplitLines(Strip(reply))|
    ensures forall i :: 0 <= i < |r.questions| ==> IsStripped(r.questions[i])
    ensures r.questions == [] <==> Blank(reply)
  {
    Replies.BulletBlockLines(reviewPoints);
    Questions(Replies.BulletBlock(reviewPoints), Replies.SplitReply(reply))
  }

  /** `conduct_interview`, with the lines the user types as `inputs`: one stripped answer
      per question, in order, or None when the input ends first (`input()` raises
      `EOFError`, which the function does not catch). */
  method ConductInterview(questions: seq<string>, inputs: seq<string>) returns (answers: Option<seq<string>>)
    ensures answers.Some? <==> |inputs| >= |questions|
    ensures answers.Some? ==> |answers.value| == |questions|
    ensures answers.Some? ==> forall i :: 0 <= i < |questions| ==> answers.value[i] == Strip(inputs[i])
  {
    var collected: seq<string> := [];
    var idx := 0;
    while idx < |questions|
      invariant 0 <= idx <= |questions| && idx <= |inputs|
      invariant |collected| == idx
      invariant forall i :: 0 <= i < idx ==> collected[i] == Strip(inputs[i])
    {
      if idx == |inputs| {
        return None;
      }
      collected := collected + [Strip(inputs[idx])];
      idx := idx + 1;
    }
    answers := Some(collected);
  }
}
