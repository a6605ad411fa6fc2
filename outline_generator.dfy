/**
 * `outline_generator.py`: the subtopic candidates read from the model's reply to a
 * prompt that lists the user's responses and the review points.
 */
module OutlineGenerator {
  import opened Text
  import Replies

  /** What `generate_subtopics` computes around the model call. */
  datatype Outline = Outline(responseBlock: string, keywordBlock: string, subtopics: seq<string>)

  /** `generate_subtopics`, given the model's `reply`: the responses and the review points
      as one `- x` line each, and one subtopic per non-blank reply line. */
  function GenerateSubtopics(userResponses: seq<string>, reviewPoints: seq<string>, reply: string): (r: Outline)
    ensures Replies.ListsEach(r.responseBlock, userResponses)
    ensures Replies.ListsEach(r.keywordBlock, reviewPoints)
    ensures |r.subtopics| <= |SplitLines(Strip(reply))|
    ensures forall i :: 0 <= i < |r.subtopics| ==> IsStripped(r.subtopics[i])
    ensures r.subtopics == [] <==> Blank(reply)
  {
    Replies.BulletBlockLines(userResponses);
    Replies.BulletBlockLines(reviewPoints);
    Outline(Replies.BulletBlock(userResponses), Replies.BulletBlock(reviewPoints), Replies.SplitReply(reply))
  }
}
