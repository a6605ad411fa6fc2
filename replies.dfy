/**
 * The two idioms the generator modules share: reading a model reply as one item per
 * non-blank line, `[line.strip("- ").strip() for line in reply.strip().splitlines()
 * if line.strip()]`, and writing a list into a prompt as `"\n".join(f"- {x}" for x in xs)`.
 */
module Replies {
  import opened Text

  /** The characters `line.strip("- ")` removes from both ends. */
  const DashSpace: set<char> := {'-', ' '}

  /** `line.strip("- ").strip()`. */
  function Clean(line: string): (item: string)
    ensures IsStripped(item) && |item| <= |line|
  {
    Strip(StripChars(line, DashSpace))
  }

  /** The items of the non-blank lines, in line order. */
  function Items(lines: seq<string>): (items: seq<string>)
    ensures |items| <= |lines|
  {
    Kept(Clean, lines)
  }

  /** Every item is stripped. */
  lemma {:induction false} ItemsStripped(lines: seq<string>)
    ensures forall i :: 0 <= i < |Items(lines)| ==> IsStripped(Items(lines)[i])
  {
    KeptAll(Clean, IsStripped, lines);
  }

  /** No item comes exactly when every line is blank. */
  lemma {:induction false} ItemsEmpty(lines: seq<string>)
    ensures Items(lines) == [] <==> forall i :: 0 <= i < |lines| ==> Blank(lines[i])
  {
    KeptEmpty(Clean, lines);
  }

  /** The items of a model reply. */
  function SplitReply(reply: string): (items: seq<string>)
    ensures |items| <= |SplitLines(Strip(reply))|
    ensures forall i :: 0 <= i < |items| ==> IsStripped(items[i])
    ensures items == [] <==> Blank(reply)
  {
    FirstLineOfReply(reply);
    ItemsEmpty(SplitLines(Strip(reply)));
    ItemsStripped(SplitLines(Strip(reply)));
    Items(SplitLines(Strip(reply)))
  }

  /** The stripped text of a non-blank reply starts with a character that is neither
      whitespace nor a line boundary, so its first line is not blank. */
  lemma {:induction false} FirstLineOfReply(reply: string)
    ensures var lines := SplitLines(Strip(reply));
            !Blank(reply) ==> lines != [] && !Blank(lines[0])
  {
    if !Blank(reply) {
      var text := Strip(reply);
      StripEmpty(reply);
      assert text != [] && text[0] !in Whitespace;
      assert text[0] !in LineBreaks;
      SplitLinesFirst(text);
      var first := text[..BreakIndex(text)];
      assert first[0] == text[0];
      assert !IsSpace(first[0]);
    }
  }

  /** The items of a reply, line by line: as many as the reply's stripped text has lines
      whose `strip()` is non-empty, each the cleaned text of such a line, in line order. */
  lemma {:induction false} SplitReplyLines(reply: string)
    ensures var lines := SplitLines(Strip(reply));
            var pos := NonBlankPositions(lines);
            var items := SplitReply(reply);
            |items| == |pos|
            && (forall a, b :: 0 <= a < b < |pos| ==> pos[a] < pos[b])
            && (forall j :: 0 <= j < |pos| ==>
                  pos[j] < |lines| && Strip(lines[pos[j]]) != [] && items[j] == Clean(lines[pos[j]]))
            && (forall k :: 0 <= k < |lines| && Strip(lines[k]) != [] ==> k in pos)
  {
    var lines := SplitLines(Strip(reply));
    KeptTrace(Clean, lines);
    NonBlankPositionsComplete(lines);
    forall x ensures Strip(x) != [] <==> !Blank(x) {
      StripEmpty(x);
    }
  }

  /** The items of two runs of lines are those of the first, then those of the second. */
  lemma {:induction false} ItemsAppend(a: seq<string>, b: seq<string>)
    ensures Items(a + b) == Items(a) + Items(b)
  {
    KeptAppend(Clean, a, b);
  }

  /** A blank line gives no item; any other line gives exactly its cleaned text. */
  lemma {:induction false} ItemsOfLine(line: string)
    ensures Items([line]) == if Blank(line) then [] else [Clean(line)]
  {
    assert [line][1..] == [];
  }

  /** With no blank line, every line gives one item: the count equals the line count. */
  lemma {:induction false} ItemsOfNonBlank(lines: seq<string>)
    requires forall i :: 0 <= i < |lines| ==> !Blank(lines[i])
    ensures |Items(lines)| == |lines|
    ensures forall i :: 0 <= i < |lines| ==> Items(lines)[i] == Clean(lines[i])
  {
    KeptOfNonBlank(Clean, lines);
  }

  /** A line of dashes and spaces that is not blank gives an empty item. */
  lemma {:induction false} DashLineGivesEmpty(line: string)
    requires line != [] && '-' in line
    requires forall k :: 0 <= k < |line| ==> line[k] in DashSpace
    ensures !Blank(line) && Items([line]) == [""]
  {
    var k :| 0 <= k < |line| && line[k] == '-';
    assert !IsSpace(line[k]);
    assert StripChars(line, DashSpace) == [];
    assert [line][1..] == [];
  }

  /** The `- x` line for each item. */
  function Bulleted(items: seq<string>): (lines: seq<string>)
    ensures |lines| == |items| && forall i :: 0 <= i < |items| ==> lines[i] == "- " + items[i]
  {
    seq(|items|, i requires 0 <= i < |items| => "- " + items[i])
  }

  /** `"\n".join(f"- {x}" for x in items)`. */
  function BulletBlock(items: seq<string>): (block: string)
    ensures items == [] ==> block == ""
  {
    Join("\n", Bulleted(items))
  }

  /** A block of one `- x` line per item, in order, with nothing else: what splitting it
      at '\n' gives back when no item holds a newline. */
  predicate ListsEach(block: string, items: seq<string>) {
    (items == [] ==> block == "")
    && ((forall i :: 0 <= i < |items| ==> '\n' !in items[i]) && items != [] ==> Split(block, '\n') == Bulleted(items))
  }

  /** The block has exactly one `- x` line per item, in order. */
  lemma {:induction false} BulletBlockLines(items: seq<string>)
    ensures ListsEach(BulletBlock(items), items)
  {
    if items != [] && forall i :: 0 <= i < |items| ==> '\n' !in items[i] {
      var lines := Bulleted(items);
      forall k | 0 <= k < |lines| ensures '\n' !in lines[k] {
        assert lines[k] == "- " + items[k];
      }
      SplitOfJoin(lines, '\n');
    }
  }

  /** Cleaning a `- x` line gives `x` back when `x` neither starts nor ends with a dash,
      a space or other whitespace. */
  lemma {:induction false} CleanOfBullet(x: string)
    requires x != [] && IsStripped(x) && IsStrippedOf(x, DashSpace)
    ensures Clean("- " + x) == x && !Blank("- " + x)
  {
    var line := "- " + x;
    assert line[0] == '-' && !IsSpace('-');
    assert line[1..] == " " + x && (" " + x)[1..] == x;
    assert TrimStart(x, DashSpace) == x;
    assert TrimStart(" " + x, DashSpace) == x;
    assert TrimStart(line, DashSpace) == x;
    assert TrimEnd(x, DashSpace) == x;
  }

  /** Reading a block back as a reply gives the items again, when each item is non-empty,
      has no line boundary and neither starts nor ends with a dash or whitespace. */
  lemma {:induction false} BulletBlockRoundTrip(items: seq<string>)
    requires forall i :: 0 <= i < |items| ==> items[i] != [] && NoLineBreaks(items[i])
    requires forall i :: 0 <= i < |items| ==> IsStripped(items[i]) && IsStrippedOf(items[i], DashSpace)
    ensures SplitReply(BulletBlock(items)) == items
  {
    var lines := Bulleted(items);
    var block := BulletBlock(items);
    if items == [] {
      assert Blank(block);
    } else {
      assert SplitLines(Strip(block)) == lines by {
        BulletLinesSplit(items);
      }
      assert Items(lines) == items by {
        BulletLinesRead(items);
        ItemsOfNonBlank(lines);
      }
    }
  }

  /** Each `- x` line is non-blank and cleans back to `x`. */
  lemma {:induction false} BulletLinesRead(items: seq<string>)
    requires forall i :: 0 <= i < |items| ==> items[i] != []
    requires forall i :: 0 <= i < |items| ==> IsStripped(items[i]) && IsStrippedOf(items[i], DashSpace)
    ensures var lines := Bulleted(items);
            forall k :: 0 <= k < |lines| ==> Clean(lines[k]) == items[k] && !Blank(lines[k])
  {
    var lines := Bulleted(items);
    forall k | 0 <= k < |lines| ensures Clean(lines[k]) == items[k] && !Blank(lines[k]) {
      CleanOfBullet(items[k]);
    }
  }

  /** The block is already stripped and its lines are the `- x` lines. */
  lemma {:induction false} BulletLinesSplit(items: seq<string>)
    requires items != []
    requires forall i :: 0 <= i < |items| ==> items[i] != [] && NoLineBreaks(items[i])
    requires forall i :: 0 <= i < |items| ==> IsStripped(items[i])
    ensures var block := BulletBlock(items);
            Strip(block) == block && SplitLines(block) == Bulleted(items)
  {
    BulletBlockLinesOf(items);
    BulletBlockStripped(items);
  }

  /** `splitlines()` of the block gives the `- x` lines when the last item is non-empty
      and no item holds a line boundary. */
  lemma {:induction false} BulletBlockLinesOf(items: seq<string>)
    requires items != [] && items[|items| - 1] != []
    requires forall i :: 0 <= i < |items| ==> NoLineBreaks(items[i])
    ensures SplitLines(BulletBlock(items)) == Bulleted(items)
  {
    BulletedNoBreaks(items);
    SplitLinesOfJoin(Bulleted(items));
  }

  /** With no empty item, the block starts with '-' and ends with the last item's last
      character, so it is already stripped when that character is not whitespace. */
  lemma {:induction false} BulletBlockStripped(items: seq<string>)
    requires items != [] && forall i :: 0 <= i < |items| ==> items[i] != []
    requires IsStripped(items[|items| - 1])
    ensures Strip(BulletBlock(items)) == BulletBlock(items)
  {
    var lines := Bulleted(items);
    var last := |items| - 1;
    assert lines[last][|lines[last]| - 1] == items[last][|items[last]| - 1];
    StripOfBlock(lines);
  }

  /** No `- x` line holds a line boundary when no item does. */
  lemma {:induction false} BulletedNoBreaks(items: seq<string>)
    requires forall i :: 0 <= i < |items| ==> NoLineBreaks(items[i])
    ensures var lines := Bulleted(items);
            forall k, j :: 0 <= k < |lines| && 0 <= j < |lines[k]| ==> lines[k][j] !in LineBreaks
  {
    var lines := Bulleted(items);
    forall k, j | 0 <= k < |lines| && 0 <= j < |lines[k]| ensures lines[k][j] !in LineBreaks {
      if j >= 2 {
        assert lines[k][j] == items[k][j - 2];
      }
    }
  }

  /** A block whose first line starts with '-' and whose last line ends in a non-space
      character is already stripped. */
  lemma {:induction false} StripOfBlock(lines: seq<string>)
    requires lines != [] && forall k :: 0 <= k < |lines| ==> |lines[k]| >= 3 && lines[k][0] == '-'
    requires !IsSpace(lines[|lines| - 1][|lines[|lines| - 1]| - 1])
    ensures Strip(Join("\n", lines)) == Join("\n", lines)
  {
    var s := Join("\n", lines);
    JoinEnds(lines);
    assert s[0] !in Whitespace && s[|s| - 1] !in Whitespace;
  }
}
