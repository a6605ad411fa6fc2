/**
 * `utils/io.py`: `parse_list`, which pulls numbered or bulleted items out of a model reply
 * with a regular expression and otherwise falls back to the non-blank lines, and the
 * checks `select_items_from_list` applies to each answer the user types.
 */
module UtilsIo {
  import opened Common
  import opened Text

  const Bullets: set<char> := {'-', '*', '•'}

  // ----- The pattern (?:^|\n)(?:\d+\.\s+|\-\s+|\*\s+|•\s+)(.*?)(?=\n|$) -----
  //
  // Whether the pattern matches at a position depends only on the text from there on and
  // on whether the position is the start of the text (where `^` matches, no MULTILINE
  // flag being set): `FindAll` makes the first attempt with both alternatives open and
  // `Scan` goes on over the suffixes, where only `\n` can open a match.

  /** Length of the marker token at the start of `u`: `\d+\.` or one bullet character. */
  function TokenLen(u: string): (n: Option<nat>)
    ensures n.Some? ==> 0 < n.value <= |u|
  {
    if u == [] then None
    else if IsDigit(u[0]) then
      var d := RunLen(u, IsDigit);
      if d < |u| && u[d] == '.' then Some(d + 1) else None
    else if u[0] in Bullets then Some(1)
    else None
  }

  /** Length of `\d+\.\s+|\-\s+|\*\s+|•\s+` matched at the start of `u` (`\s+` is greedy,
      so it runs on across line breaks). */
  function MarkerLen(u: string): (n: Option<nat>)
    ensures n.Some? ==> 2 <= n.value <= |u|
  {
    match TokenLen(u)
    case None => None
    case Some(t) =>
      var s := RunLen(u[t..], IsSpace);
      if s > 0 then Some(t + s) else None
  }

  /** `(.*?)(?=\n|$)` from `k`: the group runs to the next newline or the end of the text. */
  function Capture(u: string, k: nat): (m: (string, nat))
    requires k <= |u|
    ensures k <= m.1 <= |u| && m.0 == u[k..m.1]
  {
    var e := k + IndexOf(u[k..], '\n');
    (u[k..e], e)
  }

  /** One attempt of the whole pattern at the start of the text, where both alternatives
      of `(?:^|\n)` are open: the group and the length matched. */
  function FirstAttempt(u: string): (m: Option<(string, nat)>)
    ensures m.Some? ==> 0 < m.value.1 <= |u|
  {
    if MarkerLen(u).Some? then Some(Capture(u, MarkerLen(u).value))
    else Attempt(u)
  }

  /** One attempt of the pattern anywhere past the start of the text, where only the `\n`
      alternative of `(?:^|\n)` can match. */
  function Attempt(u: string): (m: Option<(string, nat)>)
    ensures m.Some? ==> 0 < m.value.1 <= |u|
  {
    if u != [] && u[0] == '\n' && MarkerLen(u[1..]).Some? then Some(Capture(u, 1 + MarkerLen(u[1..]).value))
    else None
  }

  /** `re.findall(pattern, text)` from a position past the start of the text: each match
      is tried from where the last one ended, and the search moves one character on after
      a failed attempt. */
  function Scan(u: string): seq<string>
    decreases |u|
  {
    if u == [] then []
    else
      match Attempt(u)
      case Some(m) => [m.0] + Scan(u[m.1..])
      case None => Scan(u[1..])
  }

  /** `re.findall(pattern, text)`: the first attempt is made at the start of the text. */
  function FindAll(text: string): seq<string>
  {
    if text == [] then []
    else
      match FirstAttempt(text)
      case Some(m) => [m.0] + Scan(text[m.1..])
      case None => Scan(text[1..])
  }

  /** `[s.strip() for s in xs]`. */
  function StripAll(xs: seq<string>): (ys: seq<string>)
    ensures |ys| == |xs| && forall i :: 0 <= i < |xs| ==> ys[i] == Strip(xs[i])
  {
    seq(|xs|, i requires 0 <= i < |xs| => Strip(xs[i]))
  }

  /** `[l.strip() for l in lines if l.strip()]`: a line is kept exactly when it is not
      blank, since `Strip` empties exactly the blank lines. */
  function NonBlankLines(lines: seq<string>): (items: seq<string>)
    ensures |items| <= |lines|
  {
    Kept(Strip, lines)
  }

  /** Every item of the fallback is a non-empty stripped line. */
  lemma {:induction false} NonBlankLinesStripped(lines: seq<string>)
    ensures forall i :: 0 <= i < |NonBlankLines(lines)| ==> NonBlankLines(lines)[i] != [] && IsStripped(NonBlankLines(lines)[i])
  {
    forall x | !Blank(x) ensures Strip(x) != [] {
      StripEmpty(x);
    }
    KeptAll(Strip, s => s != [] && IsStripped(s), lines);
  }

  /** The fallback finds nothing exactly when every line is blank. */
  lemma {:induction false} NonBlankLinesEmpty(lines: seq<string>)
    ensures NonBlankLines(lines) == [] <==> forall i :: 0 <= i < |lines| ==> Blank(lines[i])
  {
    KeptEmpty(Strip, lines);
  }

  /** `parse_list(text)`. */
  function ParseList(text: string): seq<string>
  {
    if text == [] then []
    else
      var matches := FindAll(text);
      if matches != [] then StripAll(matches)
      else NonBlankLines(Split(Strip(text), '\n'))
  }

  // ----- What the scanner finds, line by line -----

  /** A line that starts with a marker token followed by nothing but whitespace. */
  predicate BareMarker(line: string) {
    TokenLen(line).Some? && Blank(line[TokenLen(line).value..])
  }

  /** The text after the marker of a line that starts with one; nothing for other lines. */
  function LineRest(line: string): seq<string> {
    match MarkerLen(line)
    case Some(k) => [line[k..]]
    case None => []
  }

  /** The text after the marker of each line that starts with one, in line order. */
  function MarkedRests(lines: seq<string>): seq<string>
    decreases |lines|
  {
    if lines == [] then [] else LineRest(lines[0]) + MarkedRests(lines[1..])
  }

  /** Off the start of the text, the scan passes over everything up to the next newline. */
  lemma {:induction false} ScanSkipsToNewline(u: string)
    ensures Scan(u) == Scan(u[IndexOf(u, '\n')..])
    decreases |u|
  {
    if u != [] && u[0] != '\n' {
      assert IndexOf(u, '\n') == 1 + IndexOf(u[1..], '\n');
      assert u[IndexOf(u, '\n')..] == u[1..][IndexOf(u[1..], '\n')..];
      ScanSkipsToNewline(u[1..]);
    }
  }

  /** A line break after a line does not change the token at its start. */
  lemma {:induction false} TokenLenOfLine(l: string, w: string)
    requires w == [] || w[0] == '\n'
    ensures TokenLen(l + w) == TokenLen(l)
  {
    if w == [] {
      assert l + w == l;
    } else {
      if l == [] {
        assert l + w == w;
      } else {
        assert (l + w)[0] == l[0];
        if IsDigit(l[0]) {
          assert !IsDigit(w[0]);
          RunLenOfPrefix(l, w, IsDigit);
          var d := RunLen(l, IsDigit);
          if d < |l| {
            assert (l + w)[d] == l[d];
          } else {
            assert (l + w)[d] == w[0];
          }
        }
      }
    }
  }

  /** A line break after a line that is not a bare marker does not change the marker
      matched at its start. */
  lemma {:induction false} MarkerLenOfLine(l: string, w: string)
    requires w == [] || w[0] == '\n'
    requires w == [] || !BareMarker(l)
    ensures MarkerLen(l + w) == MarkerLen(l)
  {
    TokenLenOfLine(l, w);
    if w == [] {
      assert l + w == l;
    } else if TokenLen(l).Some? {
      var t := TokenLen(l).value;
      assert !Blank(l[t..]);
      RunLenAll(l[t..], IsSpace);
      assert RunLen(l[t..], IsSpace) < |l[t..]|;
      assert (l + w)[t..] == l[t..] + w;
      RunLenOfPrefix(l[t..], w, IsSpace);
    }
  }

  /** Where the first line ends: the marker matched at the start of the text is the one
      matched at the start of its first line, unless that line is a bare marker followed
      by more lines. */
  lemma {:induction false} MarkerWithinLine(l: string, w: string)
    requires '\n' !in l
    requires w == [] || (w[0] == '\n' && !BareMarker(l))
    ensures MarkerLen(l + w) == MarkerLen(l)
    ensures MarkerLen(l).Some? ==> IndexOf((l + w)[MarkerLen(l).value..], '\n') == |l| - MarkerLen(l).value
  {
    MarkerLenOfLine(l, w);
    if MarkerLen(l).Some? {
      var k := MarkerLen(l).value;
      assert (l + w)[k..] == l[k..] + w;
      assert forall x :: x in l[k..] ==> x in l;
      IndexOfAfter(l[k..], w, '\n');
      if w == [] {
        assert IndexOf(w, '\n') == 0;
      }
    }
  }

  /** No line but the last of `v` is a bare marker. */
  predicate NoInnerBareMarker(v: string) {
    var ls := Split(v, '\n');
    forall j :: 0 <= j < |ls| - 1 ==> !BareMarker(ls[j])
  }

  /** The condition on the lines of `v` covers its first line when more lines follow,
      and passes on to the text after the first newline. */
  lemma {:induction false} FirstLine(v: string)
    requires NoInnerBareMarker(v)
    requires IndexOf(v, '\n') < |v|
    ensures !BareMarker(v[..IndexOf(v, '\n')])
    ensures NoInnerBareMarker(v[IndexOf(v, '\n') + 1..])
  {
    var i := IndexOf(v, '\n');
    var ls := Split(v, '\n');
    var rest := Split(v[i + 1..], '\n');
    assert ls == [v[..i]] + rest;
    assert ls[0] == v[..i];
    forall j | 0 <= j < |rest| - 1 ensures !BareMarker(rest[j]) {
      assert rest[j] == ls[j + 1];
    }
  }

  /** The first `'\n'` of `l + w` is the one that starts `w`. */
  lemma {:induction false} LineEnd(l: string, w: string)
    requires '\n' !in l && (w == [] || w[0] == '\n')
    ensures IndexOf(l + w, '\n') == |l| && (l + w)[|l|..] == w
  {
    IndexOfAfter(l, w, '\n');
  }

  /** A successful attempt contributes its group, and the scan goes on after the match. */
  lemma {:induction false} ScanStep(u: string, group: string, e: nat)
    requires Attempt(u) == Some((group, e))
    ensures Scan(u) == [group] + Scan(u[e..])
  {
  }

  /** Slices of a line and its continuation after a leading newline. */
  lemma {:induction false} SlicesAfterNewline(l: string, w: string, k: nat)
    requires k <= |l|
    ensures var u := ['\n'] + (l + w);
            u[1..] == l + w && u[1 + k..] == (l + w)[k..] && u[1 + k..1 + |l|] == l[k..]
            && u[1 + |l|..] == w
  {
  }

  /** An attempt on a newline followed by a marker of length `k` captures up to the next
      newline. */
  lemma {:induction false} AttemptNewline(u: string, k: nat, e: nat)
    requires u != [] && u[0] == '\n' && MarkerLen(u[1..]) == Some(k)
    requires 1 + k <= e <= |u| && IndexOf(u[1 + k..], '\n') == e - 1 - k
    ensures Attempt(u) == Some((u[1 + k..e], e))
  {
  }

  /** The first newline after position `k` of `l + w` is the one that starts `w`. */
  lemma {:induction false} LineEndAt(l: string, w: string, k: nat)
    requires '\n' !in l && (w == [] || w[0] == '\n') && k <= |l|
    ensures IndexOf((l + w)[k..], '\n') == |l| - k
  {
    assert forall x :: x in l[k..] ==> x in l;
    IndexOfAfter(l[k..], w, '\n');
    assert (l + w)[k..] == l[k..] + w;
  }

  /** After a newline, a marked line is matched up to its end. */
  lemma {:induction false} AttemptAfterNewline(l: string, w: string, k: nat)
    requires '\n' !in l && (w == [] || w[0] == '\n')
    requires k <= |l| && MarkerLen(l + w) == Some(k)
    ensures Attempt(['\n'] + (l + w)) == Some((l[k..], 1 + |l|))
  {
    var u := ['\n'] + (l + w);
    SlicesAfterNewline(l, w, k);
    LineEndAt(l, w, k);
    AttemptNewline(u, k, 1 + |l|);
  }

  /** A marked line after a newline: the match takes the newline, the marker and the rest
      of the line. */
  lemma {:induction false} ScanMarkedAfterNewline(l: string, w: string)
    requires '\n' !in l
    requires w == [] || (w[0] == '\n' && !BareMarker(l))
    requires MarkerLen(l).Some?
    ensures Scan(['\n'] + (l + w)) == [l[MarkerLen(l).value..]] + Scan(w)
  {
    var u := ['\n'] + (l + w);
    var k := MarkerLen(l).value;
    assert Attempt(u) == Some((l[k..], 1 + |l|)) by {
      MarkerLenOfLine(l, w);
      AttemptAfterNewline(l, w, k);
    }
    assert u[1 + |l|..] == w by {
      SlicesAfterNewline(l, w, k);
    }
    ScanStep(u, l[k..], 1 + |l|);
  }

  /** An unmarked line after a newline: the scan passes over it. */
  lemma {:induction false} ScanUnmarkedAfterNewline(l: string, w: string)
    requires '\n' !in l
    requires w == [] || (w[0] == '\n' && !BareMarker(l))
    requires MarkerLen(l).None?
    ensures Scan(['\n'] + (l + w)) == Scan(w)
  {
    var u := ['\n'] + (l + w);
    MarkerWithinLine(l, w);
    assert u[1..] == l + w;
    assert Attempt(u) == None;
    LineEnd(l, w);
    ScanSkipsToNewline(l + w);
  }

  /** A line after a newline: its marked rest, then the scan of what follows the line. */
  lemma {:induction false} ScanLineAfterNewline(l: string, w: string)
    requires '\n' !in l
    requires w == [] || (w[0] == '\n' && !BareMarker(l))
    ensures Scan(['\n'] + (l + w)) == LineRest(l) + Scan(w)
  {
    if MarkerLen(l).Some? {
      ScanMarkedAfterNewline(l, w);
    } else {
      ScanUnmarkedAfterNewline(l, w);
    }
  }

  /** The first line of the text: its marked rest, then the scan of what follows it. */
  lemma {:induction false} ScanFirstLine(l: string, w: string)
    requires '\n' !in l
    requires w == [] || (w[0] == '\n' && !BareMarker(l))
    ensures FindAll(l + w) == LineRest(l) + Scan(w)
  {
    var t := l + w;
    MarkerWithinLine(l, w);
    if l == [] {
      assert t == w;
      assert MarkerLen(w) == None;
    } else {
      match MarkerLen(l)
      case Some(k) =>
        assert t[k..k + (|l| - k)] == l[k..];
        assert t[|l|..] == w;
      case None =>
        assert t[0] == l[0] && l[0] in l;
        assert t[1..] == l[1..] + w;
        assert forall x :: x in l[1..] ==> x in l;
        LineEnd(l[1..], w);
        ScanSkipsToNewline(t[1..]);
    }
  }

  /** The lines after a newline, as the scan sees them. */
  lemma {:induction false} ScanAfterNewline(v: string)
    requires NoInnerBareMarker(v)
    ensures Scan(['\n'] + v) == MarkedRests(Split(v, '\n'))
    decreases |v|
  {
    var i := IndexOf(v, '\n');
    var l, w := v[..i], v[i..];
    assert v == l + w;
    if i < |v| {
      FirstLine(v);
      assert w == ['\n'] + v[i + 1..];
      ScanLineAfterNewline(l, w);
      ScanAfterNewline(v[i + 1..]);
      assert Split(v, '\n') == [l] + Split(v[i + 1..], '\n');
      assert MarkedRests(Split(v, '\n')) == LineRest(l) + MarkedRests(Split(v[i + 1..], '\n'));
    } else {
      ScanLineAfterNewline(l, w);
      assert l == v && w == [];
      assert Split(v, '\n') == [l];
    }
  }

  /** When no line but the last is a bare marker, `findall` returns exactly the text after
      the marker of each line that starts with `digits.` or a bullet followed by whitespace,
      in line order. */
  lemma {:induction false} ScanByLines(t: string)
    requires NoInnerBareMarker(t)
    ensures FindAll(t) == MarkedRests(Split(t, '\n'))
  {
    var i := IndexOf(t, '\n');
    var l, w := t[..i], t[i..];
    assert t == l + w;
    if i < |t| {
      FirstLine(t);
      assert w == ['\n'] + t[i + 1..];
      ScanFirstLine(l, w);
      ScanAfterNewline(t[i + 1..]);
      assert Split(t, '\n') == [l] + Split(t[i + 1..], '\n');
      assert MarkedRests(Split(t, '\n')) == LineRest(l) + MarkedRests(Split(t[i + 1..], '\n'));
    } else {
      ScanFirstLine(l, w);
      assert l == t && w == [];
      assert Split(t, '\n') == [l];
    }
  }

  /** `parse_list` on a text whose lines carry markers: the stripped text after each
      marker, in line order (no line but the last being a bare marker). */
  lemma {:induction false} ParseListMarked(text: string)
    requires NoInnerBareMarker(text)
    requires MarkedRests(Split(text, '\n')) != []
    ensures ParseList(text) == StripAll(MarkedRests(Split(text, '\n')))
  {
    ScanByLines(text);
  }

  /** `findall` on "- \n- b": the `\s+` after the first dash takes the space and the
      newline, and the group is the whole second line. */
  lemma {:induction false} ScanSwallowsNextLine()
    ensures FindAll("- \n- b") == ["- b"]
  {
    var t := "- \n- b";
    assert TokenLen(t) == Some(1);
    var a := t[1..];
    assert a == " \n- b" && a[1..] == "\n- b" && a[1..][1..] == "- b";
    assert IsSpace(' ') && IsSpace('\n') && !IsSpace('-');
    assert RunLen(a[1..][1..], IsSpace) == 0;
    assert RunLen(a, IsSpace) == 2;
    assert MarkerLen(t) == Some(3);
    var c := t[3..];
    assert c == "- b" && c[1..] == " b" && c[1..][1..] == "b" && c[1..][1..][1..] == [];
    assert IndexOf(c, '\n') == 3;
    assert Capture(t, 3).0 == "- b" && Capture(t, 3).1 == 6;
    assert FirstAttempt(t) == Some(Capture(t, 3));
    assert t[6..] == [];
    assert FindAll(t) == ["- b"] + Scan(t[6..]);
  }

  /** Once the pattern matches anywhere, the items are exactly the groups, stripped. */
  lemma {:induction false} ParseListMatched(text: string)
    requires FindAll(text) != []
    ensures var items := ParseList(text);
            items == StripAll(FindAll(text)) && forall i :: 0 <= i < |items| ==> IsStripped(items[i])
  {
  }

  lemma {:induction false} StripItemExample()
    ensures StripAll(["- b"]) == ["- b"]
  {
    assert IsStripped("- b") by {
      var c := "- b";
      assert c[0] == '-' && c[|c| - 1] == 'b';
    }
    assert StripAll(["- b"])[0] == Strip("- b");
  }

  /** A greedy `\s+` after a marker with nothing else on its line swallows the newline and
      the next line's marker: "- \n- b" gives the single item "- b", not ["", "b"]. */
  lemma {:induction false} BareMarkerSwallowsNextLine()
    ensures ParseList("- \n- b") == ["- b"]
  {
    ScanSwallowsNextLine();
    ParseListMatched("- \n- b");
    StripItemExample();
  }

  /** A text without digits or bullets has no match. */
  lemma {:induction false} ScanNeedsMarker(u: string)
    requires forall k :: 0 <= k < |u| ==> !IsDigit(u[k]) && u[k] !in Bullets
    ensures FindAll(u) == [] && Scan(u) == []
    decreases |u|
  {
    if u != [] {
      assert MarkerLen(u) == None;
      assert |u| > 1 ==> u[1..][0] == u[1];
      assert MarkerLen(u[1..]) == None;
      ScanNeedsMarker(u[1..]);
    }
  }

  /** Empty or whitespace-only text gives no items. */
  lemma {:induction false} ParseListBlank(text: string)
    requires Blank(text)
    ensures ParseList(text) == []
  {
    if text != [] {
      forall k | 0 <= k < |text| ensures !IsDigit(text[k]) && text[k] !in Bullets {
        assert IsSpace(text[k]);
      }
      ScanNeedsMarker(text);
      assert Split("", '\n') == [""];
    }
  }

  /** When no line starts with a marker (and no line but the last is a bare marker), the
      pattern finds nothing and the items are the non-blank lines of the stripped text,
      stripped, in order. */
  lemma {:induction false} ParseListUnmarked(text: string)
    requires NoInnerBareMarker(text)
    requires MarkedRests(Split(text, '\n')) == []
    ensures ParseList(text) == NonBlankLines(Split(Strip(text), '\n'))
  {
    if text == [] {
      assert Split("", '\n') == [""];
      assert Blank("");
    } else {
      ScanByLines(text);
    }
  }

  // ----- select_items_from_list: the checks applied to each answer -----

  /** `[int(x) for x in re.findall(r'\d+', s)]`: the values of the maximal digit runs. */
  function DigitRuns(s: string): seq<nat>
    decreases |s|
  {
    if s == [] then []
    else if IsDigit(s[0]) then
      var d := RunLen(s, IsDigit);
      RunLenAll(s, IsDigit);
      [DigitsValue(s[..d])] + DigitRuns(s[d..])
    else DigitRuns(s[1..])
  }

  /** The most digits `int()` converts from a decimal string: the default of
      `sys.get_int_max_str_digits()` since Python 3.11; a longer run, leading zeros
      included, raises ValueError. */
  const MaxStrDigits: nat := 4300

  /** Every digit run of `s` is short enough for `int()`. */
  predicate RunsConvertible(s: string)
    decreases |s|
  {
    if s == [] then true
    else if IsDigit(s[0]) then
      var d := RunLen(s, IsDigit);
      RunLenAll(s, IsDigit);
      d <= MaxStrDigits && RunsConvertible(s[d..])
    else RunsConvertible(s[1..])
  }

  /** The upper bound in force: `max_select`, or the item count when it is None, capped
      at the item count. */
  function ClampMax(count: nat, maxSelect: Option<int>): (m: int)
    ensures m <= count
    ensures maxSelect.None? ==> m == count
    ensures maxSelect.Some? ==> m <= maxSelect.value && (m == count || m == maxSelect.value)
  {
    var m := if maxSelect.None? then count else maxSelect.value;
    if m < count then m else count
  }

  predicate StrictlyIncreasing(xs: seq<nat>) {
    forall i, j :: 0 <= i < j < |xs| ==> xs[i] < xs[j]
  }

  /** `sorted(set(chosen))` for indices below `bound`. */
  function AscendingBelow(bound: nat, chosen: set<int>): (xs: seq<nat>)
    ensures StrictlyIncreasing(xs)
    ensures forall k :: k in xs <==> 0 <= k < bound && k in chosen
    ensures forall i :: 0 <= i < |xs| ==> xs[i] < bound
    decreases bound
  {
    if bound == 0 then []
    else
      var xs := AscendingBelow(bound - 1, chosen);
      if bound - 1 in chosen then xs + [bound - 1] else xs
  }

  /** The zero-based indices an answer names, without repeats: each number minus one. */
  function Chosen(runs: seq<nat>): set<int> {
    set v | v in runs :: v - 1
  }

  /** A strictly increasing sequence has as many elements as its set of elements. */
  lemma {:induction false} IncreasingCard(xs: seq<nat>)
    requires StrictlyIncreasing(xs)
    ensures |set k: int | k in xs| == |xs|
  {
    if xs != [] {
      var tail := xs[1..];
      IncreasingCard(tail);
      assert (set k: int | k in xs) == {xs[0] as int} + (set k: int | k in tail);
      assert xs[0] !in tail;
    }
  }

  /** One answer checked against `count` items: the indices chosen, ascending and without
      repeats, or None when the loop asks again (a digit run too long for `int()`, a
      number outside 1..count, or a number of distinct choices outside
      [minSelect, maxSelect]). */
  function Validate(count: nat, minSelect: int, maxSelect: int, answer: string): (r: Option<seq<nat>>)
    ensures var runs := DigitRuns(answer);
            r.Some? <==> RunsConvertible(answer) && (forall v :: v in runs ==> 1 <= v <= count)
                         && minSelect <= |Chosen(runs)| <= maxSelect
    ensures r.Some? ==> StrictlyIncreasing(r.value) && forall i :: 0 <= i < |r.value| ==> r.value[i] < count
    ensures r.Some? ==> forall k: nat :: k in r.value <==> k + 1 in DigitRuns(answer)
  {
    var runs := DigitRuns(answer);
    if !RunsConvertible(answer) then None
    else if exists v :: v in runs && (v < 1 || v > count) then None
    else
      var selected := AscendingBelow(count, Chosen(runs));
      assert (set k: int | k in selected) == Chosen(runs) by {
        forall x | x in Chosen(runs) ensures x in selected {
          var v :| v in runs && x == v - 1;
        }
      }
      IncreasingCard(selected);
      if |selected| < minSelect || |selected| > maxSelect then None
      else Some(selected)
  }

  /** The items at the given indices, in that order. */
  function Pick<T>(items: seq<T>, ix: seq<nat>): (r: seq<T>)
    requires forall i :: 0 <= i < |ix| ==> ix[i] < |items|
    ensures |r| == |ix| && forall i :: 0 <= i < |ix| ==> r[i] == items[ix[i]]
  {
    seq(|ix|, i requires 0 <= i < |ix| => items[ix[i]])
  }

  /** `select_items_from_list(items, prompt, min_select, max_select)` with the user's
      successive answers: the empty list at once for no items; otherwise the items of the
      first acceptable answer, or None while the answers given so far were all refused. */
  method SelectItems<T>(items: seq<T>, minSelect: int, maxSelect: Option<int>, answers: seq<string>)
    returns (selected: Option<seq<T>>)
    ensures items == [] ==> selected == Some([])
    ensures items != [] ==>
              var m := ClampMax(|items|, maxSelect);
              (selected.None? <==> forall k :: 0 <= k < |answers| ==> Validate(|items|, minSelect, m, answers[k]).None?)
    ensures items != [] && selected.Some? ==>
              var m := ClampMax(|items|, maxSelect);
              exists k :: 0 <= k < |answers|
                          && (forall j :: 0 <= j < k ==> Validate(|items|, minSelect, m, answers[j]).None?)
                          && Validate(|items|, minSelect, m, answers[k]).Some?
                          && selected.value == Pick(items, Validate(|items|, minSelect, m, answers[k]).value)
  {
    if items == [] {
      return Some([]);
    }
    var m := if maxSelect.None? then |items| else maxSelect.value;
    m := if m < |items| then m else |items|;
    var k := 0;
    while k < |answers|
      invariant 0 <= k <= |answers|
      invariant forall j :: 0 <= j < k ==> Validate(|items|, minSelect, m, answers[j]).None?
    {
      var chosen := Validate(|items|, minSelect, m, answers[k]);
      if chosen.Some? {
        return Some(Pick(items, chosen.value));
      }
      k := k + 1;
    }
    return None;
  }

  /** A run of `n` characters with `p` at the front makes the measured run at least `n` long. */
  lemma {:induction false} RunLenAtLeast(u: string, p: char -> bool, n: nat)
    requires n <= |u| && forall k :: 0 <= k < n ==> p(u[k])
    ensures RunLen(u, p) >= n
    decreases n
  {
    if n > 0 {
      assert forall k :: 0 <= k < n - 1 ==> u[1..][k] == u[k + 1];
      RunLenAtLeast(u[1..], p, n - 1);
    }
  }

  /** An answer that opens with more digits than `int()` converts is refused: the
      ValueError is caught and the question asked again. */
  lemma {:induction false} OverlongRunRefused(count: nat, minSelect: int, maxSelect: int, answer: string)
    requires |answer| > MaxStrDigits && forall k :: 0 <= k <= MaxStrDigits ==> IsDigit(answer[k])
    ensures Validate(count, minSelect, maxSelect, answer) == None
  {
    RunLenAtLeast(answer, IsDigit, MaxStrDigits + 1);
  }

  /** Any number outside 1..count in an answer, such as 0, has it refused. */
  lemma {:induction false} OutOfRangeRefused(count: nat, minSelect: int, maxSelect: int, answer: string, v: nat)
    requires v in DigitRuns(answer) && (v == 0 || v > count)
    ensures Validate(count, minSelect, maxSelect, answer) == None
  {
  }

  /** When `min_select` exceeds the capped `max_select`, no answer is ever accepted. */
  lemma {:induction false} MinAboveMaxRefusesAll(count: nat, minSelect: int, maxSelect: Option<int>, answer: string)
    requires minSelect > ClampMax(count, maxSelect)
    ensures Validate(count, minSelect, ClampMax(count, maxSelect), answer) == None
  {
  }
}
