/**
 * `review_writer.py`: the question-and-answer block and the review-point block put into
 * the chapter prompt, and the chapter taken from the model's reply.
 */
module ReviewWriter {
  import opened Text
  import Replies

  /** `f"질문: {q}\n답변: {a}"`. */
  function QaEntry(question: string, answer: string): string {
    "질문: " + question + "\n답변: " + answer
  }

  /** `"\n".join([... for q, a in answers.items()])`, with the dictionary's items in
      insertion order. */
  function QaBlock(answers: seq<(string, string)>): (block: string)
    ensures answers == [] ==> block == ""
  {
    Join("\n", seq(|answers|, i requires 0 <= i < |answers| => QaEntry(answers[i].0, answers[i].1)))
  }

  /** The two lines of each entry, in order: `질문: q` then `답변: a`. */
  function QaLines(answers: seq<(string, string)>): (lines: seq<string>)
    ensures |lines| == 2 * |answers|
    ensures forall i :: 0 <= i < |answers| ==>
              lines[2 * i] == "질문: " + answers[i].0 && lines[2 * i + 1] == "답변: " + answers[i].1
    decreases |answers|
  {
    if answers == [] then []
    else
      var rest := QaLines(answers[1..]);
      var r := ["질문: " + answers[0].0, "답변: " + answers[0].1] + rest;
      assert forall i :: 1 <= i < |answers| ==>
               r[2 * i] == "질문: " + answers[i].0 && r[2 * i + 1] == "답변: " + answers[i].1 by {
        forall i | 1 <= i < |answers|
          ensures r[2 * i] == "질문: " + answers[i].0 && r[2 * i + 1] == "답변: " + answers[i].1
        {
          assert answers[i] == answers[1..][i - 1];
          assert r[2 * i] == rest[2 * (i - 1)] && r[2 * i + 1] == rest[2 * (i - 1) + 1];
        }
      }
      r
  }

  /** The block is the entry lines joined by single newlines. */
  lemma {:induction false} QaBlockIsJoin(answers: seq<(string, string)>)
    ensures QaBlock(answers) == Join("\n", QaLines(answers))
    decreases |answers|
  {
    if answers != [] {
      var entries := seq(|answers|, i requires 0 <= i < |answers| => QaEntry(answers[i].0, answers[i].1));
      var tail := answers[1..];
      var tailEntries := seq(|tail|, i requires 0 <= i < |tail| => QaEntry(tail[i].0, tail[i].1));
      assert entries[1..] == tailEntries;
      QaBlockIsJoin(tail);
      var q, a := "질문: " + answers[0].0, "답변: " + answers[0].1;
      var rest := QaLines(tail);
      assert QaLines(answers) == [q, a] + rest;
      assert ([q, a] + rest)[1..] == [a] + rest;
      if tail != [] {
        assert ([a] + rest)[1..] == rest;
      }
    }
  }

  /** When no question or answer holds a newline, the block has two lines per entry, in
      insertion order, separated by single newlines. */
  lemma {:induction false} QaBlockLines(answers: seq<(string, string)>)
    requires answers != []
    requires forall i :: 0 <= i < |answers| ==> '\n' !in answers[i].0 && '\n' !in answers[i].1
    ensures Split(QaBlock(answers), '\n') == QaLines(answers)
  {
    QaBlockIsJoin(answers);
    QaLinesFlat(answers);
    SplitOfJoin(QaLines(answers), '\n');
  }

  /** No entry line holds a newline when no question or answer does. */
  lemma {:induction false} QaLinesFlat(answers: seq<(string, string)>)
    requires forall i :: 0 <= i < |answers| ==> '\n' !in answers[i].0 && '\n' !in answers[i].1
    ensures forall k :: 0 <= k < |QaLines(answers)| ==> '\n' !in QaLines(answers)[k]
  {
    var lines := QaLines(answers);
    forall k | 0 <= k < |lines| ensures '\n' !in lines[k] {
      var i := k / 2;
      if k == 2 * i {
        assert lines[k] == "질문: " + answers[i].0;
      } else {
        assert k == 2 * i + 1;
        assert lines[k] == "답변: " + answers[i].1;
      }
    }
  }

  /** What `write_chapter_from_answers` computes around the model call. */
  datatype Chapter = Chapter(qaBlock: string, keywordBlock: string, text: string)

  /** `write_chapter_from_answers`, given the model's `reply`: the entry block, the review
      points as one `- kw` line each, and the reply with surrounding whitespace removed. */
  function WriteChapterFromAnswers(answers: seq<(string, string)>, reviewPoints: seq<string>, reply: string): (r: Chapter)
    ensures answers == [] ==> r.qaBlock == ""
    ensures Replies.ListsEach(r.keywordBlock, reviewPoints)
    ensures IsStripped(r.text) && (r.text == [] <==> Blank(reply))
    ensures exists i, j :: 0 <= i <= j <= |reply| && r.text == reply[i..j] && Blank(reply[..i]) && Blank(reply[j..])
  {
    Replies.BulletBlockLines(reviewPoints);
    StripIsMiddle(reply);
    Chapter(QaBlock(answers), Replies.BulletBlock(reviewPoints), Strip(reply))
  }

  /** `s.strip()` is the part of `s` between a whitespace prefix and a whitespace suffix. */
  lemma {:induction false} StripIsMiddle(s: string)
    ensures exists i, j :: 0 <= i <= j <= |s| && Strip(s) == s[i..j] && Blank(s[..i]) && Blank(s[j..])
  {
    var t := TrimStart(s, Whitespace);
    var r := TrimEnd(t, Whitespace);
    var i := |s| - |t|;
    var j := i + |r|;
    assert r == s[i..j] by {
      assert t == s[i..] && r == t[..|r|];
    }
    assert Blank(s[..i]) by {
      TrimStartDrops(s, Whitespace);
      forall k | 0 <= k < i ensures IsSpace(s[..i][k]) {
        assert s[..i][k] == s[k];
      }
    }
    assert Blank(s[j..]) by {
      TrimEndDrops(t, Whitespace);
      forall k | 0 <= k < |s| - j ensures IsSpace(s[j..][k]) {
        assert s[j..][k] == t[|r| + k];
      }
    }
  }
}
