/**
 * `utilis/io.py`: the line-by-line `parse_list`, which strips a leading bullet or a
 * leading run of numbering characters from every non-blank line.
 */
module UtilisIo {
  import opened Common
  import opened Text

  const Bullets: set<char> := {'-', '*', '•'}

  /** A character of the class `[\d\.\)\(\s]` that `re.sub` clears from the start of a line. */
  predicate IsNumbering(c: char) {
    IsDigit(c) || c == '.' || c == ')' || c == '(' || IsSpace(c)
  }

  /** What one line contributes: nothing for a blank line or one with nothing after its
      bullet or numbering; otherwise the stripped text after that bullet or numbering. */
  function LineItem(raw: string): (r: Option<string>)
    ensures r.Some? ==> r.value != [] && IsStripped(r.value)
  {
    var line := Strip(raw);
    if line == [] then None
    else
      var item := if line[0] in Bullets then Strip(line[1..]) else DropNumbering(line);
      if item == [] then None else Some(item)
  }

  /** A blank line gives nothing; a bulleted line gives the rest after the bullet; any
      other line gives a text that no longer starts with a numbering character. */
  lemma {:induction false} LineItemCases(raw: string)
    ensures Blank(raw) ==> LineItem(raw).None?
    ensures var line := Strip(raw);
            line != [] && line[0] in Bullets ==>
              LineItem(raw) == (if Strip(line[1..]) == [] then None else Some(Strip(line[1..])))
    ensures var line := Strip(raw);
            LineItem(raw).Some? && (line == [] || line[0] !in Bullets) ==> !IsNumbering(LineItem(raw).value[0])
  {
  }

  /** `re.sub(r'^[\d\.\)\(\s]+', '', line).strip()`. */
  function DropNumbering(line: string): (item: string)
    ensures IsStripped(item) && (item == [] || !IsNumbering(item[0]))
  {
    var rest := line[RunLen(line, IsNumbering)..];
    StripKeepsFirst(rest);
    Strip(rest)
  }

  /** The values `item` gives for the lines, in line order. */
  function Gather(item: string -> Option<string>, lines: seq<string>): (r: seq<string>)
    ensures |r| <= |lines|
    decreases |lines|
  {
    if lines == [] then []
    else
      var n := |lines| - 1;
      var init := Gather(item, lines[..n]);
      match item(lines[n])
      case Some(x) => init + [x]
      case None => init
  }

  /** The positions of the lines for which `item` gives a value, in order. */
  function Positions(item: string -> Option<string>, lines: seq<string>): seq<nat>
    decreases |lines|
  {
    if lines == [] then []
    else
      var n := |lines| - 1;
      var p := Positions(item, lines[..n]);
      if item(lines[n]).Some? then p + [n] else p
  }

  /** Value positions are strictly increasing line indices, one per value, and the j-th
      value is what the line at the j-th position gives. */
  lemma {:induction false} GatherTrace(item: string -> Option<string>, lines: seq<string>)
    ensures var pos := Positions(item, lines);
            var r := Gather(item, lines);
            |pos| == |r|
            && (forall a, b :: 0 <= a < b < |pos| ==> pos[a] < pos[b])
            && forall j :: 0 <= j < |pos| ==> pos[j] < |lines| && item(lines[pos[j]]) == Some(r[j])
    decreases |lines|
  {
    if lines != [] {
      var n := |lines| - 1;
      var init := lines[..n];
      var p := Positions(item, init);
      var c := Gather(item, init);
      GatherTrace(item, init);
      var pos := Positions(item, lines);
      var r := Gather(item, lines);
      if item(lines[n]).Some? {
        assert pos == p + [n] && r == c + [item(lines[n]).value];
      } else {
        assert pos == p && r == c;
      }
      forall j | 0 <= j < |p| ensures item(lines[pos[j]]) == Some(r[j]) {
        assert pos[j] == p[j] && r[j] == c[j] && lines[p[j]] == init[p[j]];
      }
    }
  }

  /** Every line for which `item` gives a value has its position listed. */
  lemma {:induction false} PositionsComplete(item: string -> Option<string>, lines: seq<string>)
    ensures forall k :: 0 <= k < |lines| && item(lines[k]).Some? ==> k in Positions(item, lines)
    decreases |lines|
  {
    if lines != [] {
      var n := |lines| - 1;
      var init := lines[..n];
      PositionsComplete(item, init);
      var p := Positions(item, init);
      var pos := Positions(item, lines);
      forall k | 0 <= k < |lines| && item(lines[k]).Some? ensures k in pos {
        if item(lines[n]).Some? {
          assert pos == p + [n] && pos[|p|] == n;
        } else {
          assert pos == p;
        }
        if k < n {
          assert init[k] == lines[k];
        }
      }
    }
  }

  /** The values of two runs of lines are those of the first, then those of the second. */
  lemma {:induction false} GatherAppend(item: string -> Option<string>, a: seq<string>, b: seq<string>)
    ensures Gather(item, a + b) == Gather(item, a) + Gather(item, b)
    decreases |b|
  {
    if b == [] {
      assert a + b == a;
    } else {
      var n := |b| - 1;
      assert (a + b)[..|a + b| - 1] == a + b[..n];
      GatherAppend(item, a, b[..n]);
    }
  }

  /** Taking one more line appends that line's value, if any. */
  lemma {:induction false} GatherSnoc(item: string -> Option<string>, lines: seq<string>, i: nat)
    requires i < |lines|
    ensures Gather(item, lines[..i + 1]) == match item(lines[i])
                                           case Some(x) => Gather(item, lines[..i]) + [x]
                                           case None => Gather(item, lines[..i])
  {
    assert lines[..i + 1][..i] == lines[..i];
  }

  /** The items of a sequence of lines, in line order. */
  function Collect(lines: seq<string>): (items: seq<string>)
    ensures |items| <= |lines|
    ensures forall i :: 0 <= i < |items| ==> items[i] != [] && IsStripped(items[i])
  {
    GatherTrace(LineItem, lines);
    Gather(LineItem, lines)
  }

  /** `parse_list(text)`: visits the lines of `text` in order, appending each line's item. */
  method ParseList(text: string) returns (items: seq<string>)
    ensures items == Collect(SplitLines(text))
  {
    var lines := SplitLines(text);
    items := [];
    var i := 0;
    while i < |lines|
      invariant 0 <= i <= |lines|
      invariant items == Gather(LineItem, lines[..i])
    {
      GatherSnoc(LineItem, lines, i);
      var item := LineItem(lines[i]);
      if item.Some? {
        items := items + [item.value];
      }
      i := i + 1;
    }
    assert lines[..i] == lines;
  }

  /** The positions of the lines that contribute an item. */
  function SourceLines(lines: seq<string>): seq<nat> {
    Positions(LineItem, lines)
  }

  /** Each line contributes at most one item and the items keep line order: the item
      positions are strictly increasing line indices and the j-th item is what the line at
      the j-th position gives. */
  lemma {:induction false} SourceLinesTrace(lines: seq<string>)
    ensures var pos := SourceLines(lines);
            var items := Collect(lines);
            |pos| == |items|
            && (forall a, b :: 0 <= a < b < |pos| ==> pos[a] < pos[b])
            && forall j :: 0 <= j < |pos| ==> pos[j] < |lines| && LineItem(lines[pos[j]]) == Some(items[j])
  {
    GatherTrace(LineItem, lines);
  }

  /** Every line that gives an item has its position listed: the lines left out are
      exactly those that give nothing. */
  lemma {:induction false} SourceLinesOthers(lines: seq<string>)
    ensures forall k :: 0 <= k < |lines| && LineItem(lines[k]).Some? ==> k in SourceLines(lines)
  {
    PositionsComplete(LineItem, lines);
  }

  /** The items of two runs of lines are the items of the first, then those of the second. */
  lemma {:induction false} CollectAppend(a: seq<string>, b: seq<string>)
    ensures Collect(a + b) == Collect(a) + Collect(b)
  {
    GatherAppend(LineItem, a, b);
  }

  /** Blank lines contribute nothing wherever they stand. */
  lemma {:induction false} BlankLinesIgnored(a: seq<string>, blank: string, b: seq<string>)
    requires Blank(blank)
    ensures Collect(a + [blank] + b) == Collect(a + b)
  {
    CollectAppend(a + [blank], b);
    CollectAppend(a, [blank]);
    CollectAppend(a, b);
    assert [blank][..0] == [];
  }

  /** A bulleted line gives the rest of the line after that one character, stripped. */
  lemma {:induction false} BulletLine(line: string)
    requires IsStripped(line) && line != [] && line[0] in Bullets && !Blank(line[1..])
    ensures Collect([line]) == [Strip(line[1..])]
  {
    StripEmpty(line[1..]);
    assert [line][..0] == [];
  }
}
