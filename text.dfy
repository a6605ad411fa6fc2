/**
 * The Python `str` built-ins the pipeline relies on, over `seq<char>`: one `char` per
 * Unicode scalar value. A Python `str` may also hold lone surrogate code points
 * (U+D800 to U+DFFF), which a `char` cannot; strings holding them are not modelled.
 */
module Text {

  /** Python's `str.isspace()`: what `str.strip()` removes and what the regular-expression
      class `\s` matches in a `str` pattern. */
  predicate IsSpace(c: char) {
    ('\t' <= c <= '\r') || ('\U{1C}' <= c <= ' ') || c == '\U{85}' || c == '\U{A0}' || c == '\U{1680}'
    || ('\U{2000}' <= c <= '\U{200A}') || c == '\U{2028}' || c == '\U{2029}' || c == '\U{202F}'
    || c == '\U{205F}' || c == '\U{3000}'
  }

  /** The characters `str.splitlines()` treats as line boundaries ("\r\n" counts once). */
  predicate IsLineBreak(c: char) {
    ('\n' <= c <= '\r') || ('\U{1C}' <= c <= '\U{1E}') || c == '\U{85}' || c == '\U{2028}' || c == '\U{2029}'
  }

  const Whitespace: set<char> := set c: char | IsSpace(c)

  const LineBreaks: set<char> := set c: char | IsLineBreak(c)

  /** An ASCII decimal digit. */
  predicate IsDigit(c: char) { '0' <= c <= '9' }

  predicate AllDigits(s: string) { forall k :: 0 <= k < |s| ==> IsDigit(s[k]) }

  /** Holds when `s` neither starts nor ends with a character of `cs`. */
  predicate IsStrippedOf(s: string, cs: set<char>) {
    s == [] || (s[0] !in cs && s[|s| - 1] !in cs)
  }

  /** Holds when `s` has no leading or trailing whitespace. */
  predicate IsStripped(s: string) { IsStrippedOf(s, Whitespace) }

  predicate Blank(s: string) { forall k :: 0 <= k < |s| ==> IsSpace(s[k]) }

  /** `s.lstrip(chars)`: drops the longest prefix made of characters of `cs`. */
  function TrimStart(s: string, cs: set<char>): (r: string)
    ensures |r| <= |s| && r == s[|s| - |r|..]
    ensures r == [] || r[0] !in cs
    decreases |s|
  {
    if s != [] && s[0] in cs then TrimStart(s[1..], cs) else s
  }

  /** Everything `lstrip` drops is one of `cs`. */
  lemma {:induction false} TrimStartDrops(s: string, cs: set<char>)
    ensures forall k :: 0 <= k < |s| - |TrimStart(s, cs)| ==> s[k] in cs
    decreases |s|
  {
    if s != [] && s[0] in cs {
      TrimStartDrops(s[1..], cs);
      assert forall k :: 0 < k < |s| ==> s[k] == s[1..][k - 1];
    }
  }

  /** `s.rstrip(chars)`: drops the longest suffix made of characters of `cs`. */
  function TrimEnd(s: string, cs: set<char>): (r: string)
    ensures |r| <= |s| && r == s[..|r|]
    ensures r == [] || r[|r| - 1] !in cs
    decreases |s|
  {
    if s != [] && s[|s| - 1] in cs then TrimEnd(s[..|s| - 1], cs) else s
  }

  /** Everything `rstrip` drops is one of `cs`. */
  lemma {:induction false} TrimEndDrops(s: string, cs: set<char>)
    ensures forall k :: |TrimEnd(s, cs)| <= k < |s| ==> s[k] in cs
    decreases |s|
  {
    if s != [] && s[|s| - 1] in cs {
      TrimEndDrops(s[..|s| - 1], cs);
    }
  }

  /** `s.strip(chars)`: the middle of `s` once both ends are cleared of `cs`. */
  function StripChars(s: string, cs: set<char>): (r: string)
    ensures IsStrippedOf(r, cs) && |r| <= |s|
    ensures IsStrippedOf(s, cs) ==> r == s
  {
    TrimEnd(TrimStart(s, cs), cs)
  }

  /** `s.strip()`. */
  function Strip(s: string): (r: string)
    ensures IsStripped(r) && |r| <= |s|
    ensures IsStripped(s) ==> r == s
  {
    StripChars(s, Whitespace)
  }

  /** `s.strip()` is empty exactly when `s` is blank. */
  lemma {:induction false} StripEmpty(s: string)
    ensures Strip(s) == [] <==> Blank(s)
  {
    var t := TrimStart(s, Whitespace);
    TrimStartDrops(s, Whitespace);
    TrimEndDrops(t, Whitespace);
  }

  /** Stripping a text that does not start with whitespace keeps its first character. */
  lemma {:induction false} StripKeepsFirst(s: string)
    requires s == [] || !IsSpace(s[0])
    ensures s != [] ==> Strip(s) != [] && Strip(s)[0] == s[0]
  {
    if s != [] {
      assert TrimStart(s, Whitespace) == s;
      TrimEndDrops(s, Whitespace);
    }
  }

  /** Length of the longest prefix of `u` whose characters all satisfy `p`. */
  function RunLen(u: string, p: char -> bool): (n: nat)
    ensures n <= |u| && (n < |u| ==> !p(u[n]))
    decreases |u|
  {
    if u != [] && p(u[0]) then 1 + RunLen(u[1..], p) else 0
  }

  /** Every character of the run satisfies `p`. */
  lemma {:induction false} RunLenAll(u: string, p: char -> bool)
    ensures forall k :: 0 <= k < RunLen(u, p) ==> p(u[k])
    decreases |u|
  {
    if u != [] && p(u[0]) {
      RunLenAll(u[1..], p);
      assert forall k :: 0 < k < RunLen(u, p) ==> u[k] == u[1..][k - 1];
    }
  }

  /** A run that ends inside `a` is not lengthened by what follows `a`. */
  lemma {:induction false} RunLenOfPrefix(a: string, b: string, p: char -> bool)
    requires RunLen(a, p) < |a| || b == [] || !p(b[0])
    ensures RunLen(a + b, p) == RunLen(a, p)
    decreases |a|
  {
    if a != [] && p(a[0]) {
      assert (a + b)[1..] == a[1..] + b;
      RunLenOfPrefix(a[1..], b, p);
    }
  }

  /** Index of the first `c` in `s`, or `|s|` when there is none. */
  function IndexOf(s: string, c: char): (i: nat)
    ensures i <= |s| && c !in s[..i]
    ensures i < |s| ==> s[i] == c
    decreases |s|
  {
    if s == [] || s[0] == c then 0
    else
      var i := 1 + IndexOf(s[1..], c);
      assert s[..i] == [s[0]] + s[1..][..i - 1];
      i
  }

  /** The index of the first `c` is the one position before which `s` holds no `c` and at
      which it holds `c` or ends. */
  lemma {:induction false} IndexOfIs(s: string, c: char, i: nat)
    requires i <= |s| && c !in s[..i] && (i == |s| || s[i] == c)
    ensures IndexOf(s, c) == i
    decreases i
  {
    if i > 0 {
      assert s[0] == s[..i][0];
      assert s[1..][..i - 1] == s[..i][1..];
      assert forall x :: x in s[..i][1..] ==> x in s[..i];
      IndexOfIs(s[1..], c, i - 1);
    }
  }

  /** The first `c` in `a + b`, when `a` holds none, is the first `c` in `b`. */
  lemma {:induction false} IndexOfAfter(a: string, b: string, c: char)
    requires c !in a
    ensures IndexOf(a + b, c) == |a| + IndexOf(b, c)
    decreases |a|
  {
    if a != [] {
      assert a[0] in a && (a + b)[0] == a[0];
      assert (a + b)[1..] == a[1..] + b;
      assert forall x :: x in a[1..] ==> x in a;
      IndexOfAfter(a[1..], b, c);
    } else {
      assert a + b == b;
    }
  }

  /** `s.split(sep)` for a one-character separator: at least one piece, none holding `sep`. */
  function Split(s: string, sep: char): (parts: seq<string>)
    ensures |parts| >= 1
    decreases |s|
  {
    var i := IndexOf(s, sep);
    if i == |s| then [s] else [s[..i]] + Split(s[i + 1..], sep)
  }

  /** No piece of a split holds the separator. */
  lemma {:induction false} SplitPiecesFree(s: string, sep: char)
    ensures forall k :: 0 <= k < |Split(s, sep)| ==> sep !in Split(s, sep)[k]
    decreases |s|
  {
    var i := IndexOf(s, sep);
    if i < |s| {
      SplitPiecesFree(s[i + 1..], sep);
      var rest := Split(s[i + 1..], sep);
      forall k | 0 < k < |rest| + 1 ensures sep !in ([s[..i]] + rest)[k] {
        assert ([s[..i]] + rest)[k] == rest[k - 1];
      }
    }
  }

  /** `sep.join(parts)`. */
  function Join(sep: string, parts: seq<string>): string
  {
    if |parts| == 0 then ""
    else if |parts| == 1 then parts[0]
    else parts[0] + sep + Join(sep, parts[1..])
  }

  /** Splitting a joined text on its one-character separator gives back the pieces,
      provided no piece holds that separator. */
  lemma {:induction false} SplitOfJoin(parts: seq<string>, sep: char)
    requires |parts| >= 1
    requires forall k :: 0 <= k < |parts| ==> sep !in parts[k]
    ensures Split(Join([sep], parts), sep) == parts
    decreases |parts|
  {
    var s := Join([sep], parts);
    if |parts| == 1 {
      assert IndexOf(s, sep) == |s|;
    } else {
      var p := parts[0];
      var rest := Join([sep], parts[1..]);
      assert s == p + [sep] + rest;
      assert s[..|p|] == p && s[|p|] == sep;
      assert IndexOf(s, sep) == |p|;
      assert s[|p| + 1..] == rest;
      SplitOfJoin(parts[1..], sep);
    }
  }

  /** Joining the pieces of a split with the separator gives back the text. */
  lemma {:induction false} JoinOfSplit(s: string, sep: char)
    ensures Join([sep], Split(s, sep)) == s
    decreases |s|
  {
    var i := IndexOf(s, sep);
    if i < |s| {
      JoinOfSplit(s[i + 1..], sep);
      assert s == s[..i] + [sep] + s[i + 1..];
    }
  }

  /** Joining one more piece adds the separator and that piece at the end. */
  lemma {:induction false} JoinSnoc(sep: string, parts: seq<string>, x: string)
    requires parts != []
    ensures Join(sep, parts + [x]) == Join(sep, parts) + sep + x
    decreases |parts|
  {
    if |parts| > 1 {
      assert (parts + [x])[1..] == parts[1..] + [x];
      JoinSnoc(sep, parts[1..], x);
    }
  }

  /** Index of the first line-boundary character in `s`, or `|s|`. */
  function BreakIndex(s: string): (i: nat)
    ensures i <= |s| && (i < |s| ==> s[i] in LineBreaks)
    ensures forall k :: 0 <= k < i ==> s[k] !in LineBreaks
    decreases |s|
  {
    if s == [] || s[0] in LineBreaks then 0 else 1 + BreakIndex(s[1..])
  }

  /** `s.splitlines()`: the text between line boundaries, with "\r\n" as one boundary
      and no empty piece after a final boundary. */
  function SplitLines(s: string): (lines: seq<string>)
    ensures |lines| <= |s|
    ensures lines == [] <==> s == []
    decreases |s|
  {
    if s == [] then []
    else
      var i := BreakIndex(s);
      if i == |s| then [s]
      else
        var w := if s[i] == '\r' && i + 1 < |s| && s[i + 1] == '\n' then 2 else 1;
        [s[..i]] + SplitLines(s[i + w..])
  }

  /** `s` holds no line boundary. */
  predicate NoLineBreaks(s: string) {
    forall j :: 0 <= j < |s| ==> s[j] !in LineBreaks
  }

  /** No line holds a line boundary. */
  lemma {:induction false} SplitLinesNoBreaks(s: string)
    ensures forall k :: 0 <= k < |SplitLines(s)| ==> NoLineBreaks(SplitLines(s)[k])
    decreases |s|
  {
    if s != [] {
      var i := BreakIndex(s);
      if i < |s| {
        var w := if s[i] == '\r' && i + 1 < |s| && s[i + 1] == '\n' then 2 else 1;
        var tail := s[i + w..];
        SplitLinesNoBreaks(tail);
        var lines := SplitLines(s);
        var rest := SplitLines(tail);
        assert lines == [s[..i]] + rest;
        forall k | 0 <= k < |lines| ensures NoLineBreaks(lines[k]) {
          if k > 0 {
            assert lines[k] == rest[k - 1];
          } else {
            assert forall j :: 0 <= j < i ==> s[..i][j] == s[j];
          }
        }
      } else {
        assert SplitLines(s) == [s];
      }
    }
  }

  /** A non-empty text's first line runs up to its first line boundary. */
  lemma {:induction false} SplitLinesFirst(s: string)
    requires s != []
    ensures SplitLines(s) != [] && SplitLines(s)[0] == s[..BreakIndex(s)]
  {
  }

  function DigitChar(d: nat): (c: char)
    requires d < 10
    ensures IsDigit(c) && c as int - '0' as int == d
  {
    ('0' as int + d) as char
  }

  /** `str(n)` for a natural number: decimal digits, no leading zero. */
  function Decimal(n: nat): (s: string)
    ensures |s| >= 1 && AllDigits(s)
    ensures |s| > 1 ==> s[0] != '0'
    decreases n
  {
    if n < 10 then [DigitChar(n)] else Decimal(n / 10) + [DigitChar(n % 10)]
  }

  /** `int(s)` for a run of ASCII digits. */
  function DigitsValue(s: string): nat
    requires AllDigits(s)
    decreases |s|
  {
    if s == [] then 0
    else DigitsValue(s[..|s| - 1]) * 10 + (s[|s| - 1] as int - '0' as int)
  }

  /** `int(str(n)) == n`. */
  lemma {:induction false} DigitsValueOfDecimal(n: nat)
    ensures DigitsValue(Decimal(n)) == n
    decreases n
  {
    var s := Decimal(n);
    if n >= 10 {
      assert s[..|s| - 1] == Decimal(n / 10);
      DigitsValueOfDecimal(n / 10);
    }
  }

  /** `"\n".join(parts).splitlines()` gives the parts back when none holds a line
      boundary and the last is not empty. */
  lemma {:induction false} SplitLinesOfJoin(parts: seq<string>)
    requires |parts| >= 1 && parts[|parts| - 1] != []
    requires forall k, j :: 0 <= k < |parts| && 0 <= j < |parts[k]| ==> parts[k][j] !in LineBreaks
    ensures SplitLines(Join("\n", parts)) == parts
    decreases |parts|
  {
    var s := Join("\n", parts);
    var p := parts[0];
    if |parts| == 1 {
      assert s == p && p == parts[|parts| - 1] && s != [];
      assert forall k :: 0 <= k < |s| ==> s[k] !in LineBreaks;
    } else {
      var rest := Join("\n", parts[1..]);
      assert s == p + "\n" + rest;
      assert BreakIndex(s) == |p| by {
        var i := BreakIndex(s);
        assert forall k :: 0 <= k < |p| ==> s[k] == parts[0][k];
        assert s[|p|] == '\n';
      }
      assert s[|p| + 1..] == rest && s[..|p|] == p && s != [];
      assert forall k, j :: 0 <= k < |parts[1..]| && 0 <= j < |parts[1..][k]| ==> parts[1..][k][j] == parts[k + 1][j];
      SplitLinesOfJoin(parts[1..]);
    }
  }

  /** A joined block starts with the first line's first character and ends with the last
      line's last character. */
  lemma {:induction false} JoinEnds(lines: seq<string>)
    requires lines != [] && forall k :: 0 <= k < |lines| ==> lines[k] != []
    ensures var s := Join("\n", lines);
            |s| >= |lines[0]| && s[0] == lines[0][0] && s[|s| - 1] == lines[|lines| - 1][|lines[|lines| - 1]| - 1]
    decreases |lines|
  {
    if |lines| > 1 {
      JoinEnds(lines[1..]);
    }
  }

  /** Stripping a text that ends in one newline, and otherwise neither starts nor ends
      with whitespace, removes just that newline. */
  lemma {:induction false} StripFinalNewline(s: string)
    requires s != [] && !IsSpace(s[0]) && !IsSpace(s[|s| - 1])
    ensures Strip(s + "\n") == s
  {
    var t := s + "\n";
    assert t[0] == s[0] && t[0] !in Whitespace;
    assert TrimStart(t, Whitespace) == t;
    assert t[|t| - 1] == '\n' && t[..|t| - 1] == s;
    assert TrimEnd(s, Whitespace) == s;
  }

  // ----- `[f(line) for line in lines if line.strip()]` -----

  /** `[f(line) for line in lines if line.strip()]`. */
  function Kept(f: string -> string, lines: seq<string>): (items: seq<string>)
    ensures |items| <= |lines|
    decreases |lines|
  {
    if lines == [] then []
    else
      var rest := Kept(f, lines[1..]);
      if Blank(lines[0]) then rest else [f(lines[0])] + rest
  }

  /** A property that `f` gives every non-blank line holds of every item. */
  lemma {:induction false} KeptAll(f: string -> string, p: string -> bool, lines: seq<string>)
    requires forall x :: !Blank(x) ==> p(f(x))
    ensures forall i :: 0 <= i < |Kept(f, lines)| ==> p(Kept(f, lines)[i])
    decreases |lines|
  {
    if lines != [] {
      KeptAll(f, p, lines[1..]);
    }
  }

  /** No item comes exactly when every line is blank. */
  lemma {:induction false} KeptEmpty(f: string -> string, lines: seq<string>)
    ensures Kept(f, lines) == [] <==> forall i :: 0 <= i < |lines| ==> Blank(lines[i])
    decreases |lines|
  {
    if lines != [] {
      KeptEmpty(f, lines[1..]);
      assert forall i :: 0 < i < |lines| ==> lines[i] == lines[1..][i - 1];
    }
  }

  /** The items of two runs of lines are those of the first, then those of the second. */
  lemma {:induction false} KeptAppend(f: string -> string, a: seq<string>, b: seq<string>)
    ensures Kept(f, a + b) == Kept(f, a) + Kept(f, b)
    decreases |a|
  {
    if a == [] {
      assert a + b == b;
    } else {
      assert (a + b)[0] == a[0] && (a + b)[1..] == a[1..] + b;
      KeptAppend(f, a[1..], b);
    }
  }

  /** The positions of the non-blank lines, in order. */
  function NonBlankPositions(lines: seq<string>): seq<nat>
    decreases |lines|
  {
    if lines == [] then []
    else
      var n := |lines| - 1;
      var p := NonBlankPositions(lines[..n]);
      if Blank(lines[n]) then p else p + [n]
  }

  /** Taking one more line appends that line's item unless it is blank. */
  lemma {:induction false} KeptSnoc(f: string -> string, lines: seq<string>)
    requires lines != []
    ensures var n := |lines| - 1;
            Kept(f, lines) == if Blank(lines[n]) then Kept(f, lines[..n]) else Kept(f, lines[..n]) + [f(lines[n])]
  {
    var n := |lines| - 1;
    KeptAppend(f, lines[..n], [lines[n]]);
    assert lines[..n] + [lines[n]] == lines;
    assert [lines[n]][1..] == [];
  }

  /** One item per non-blank line, in line order: the item positions are the non-blank
      lines' indices, strictly increasing, and the j-th item is `f` of the j-th of them. */
  lemma {:induction false} KeptTrace(f: string -> string, lines: seq<string>)
    ensures var pos := NonBlankPositions(lines);
            var items := Kept(f, lines);
            |pos| == |items|
            && (forall a, b :: 0 <= a < b < |pos| ==> pos[a] < pos[b])
            && (forall j :: 0 <= j < |pos| ==> pos[j] < |lines| && !Blank(lines[pos[j]]) && items[j] == f(lines[pos[j]]))
    decreases |lines|
  {
    if lines != [] {
      var n := |lines| - 1;
      var init := lines[..n];
      KeptTrace(f, init);
      KeptSnoc(f, lines);
      var p := NonBlankPositions(init);
      var c := Kept(f, init);
      var pos := NonBlankPositions(lines);
      var items := Kept(f, lines);
      assert |pos| == |items| && forall a, b :: 0 <= a < b < |pos| ==> pos[a] < pos[b];
      forall j | 0 <= j < |pos|
        ensures pos[j] < |lines| && !Blank(lines[pos[j]]) && items[j] == f(lines[pos[j]])
      {
        if j < |p| {
          assert pos[j] == p[j] && items[j] == c[j] && lines[p[j]] == init[p[j]];
        }
      }
    }
  }

  /** Every non-blank line has its position listed. */
  lemma {:induction false} NonBlankPositionsComplete(lines: seq<string>)
    ensures forall k :: 0 <= k < |lines| && !Blank(lines[k]) ==> k in NonBlankPositions(lines)
    decreases |lines|
  {
    if lines != [] {
      var n := |lines| - 1;
      var init := lines[..n];
      NonBlankPositionsComplete(init);
      var pos := NonBlankPositions(lines);
      forall k | 0 <= k < |lines| && !Blank(lines[k]) ensures k in pos {
        if k < n {
          assert init[k] == lines[k];
        } else {
          assert pos[|pos| - 1] == n;
        }
      }
    }
  }

  /** With no blank line, every line gives one item, in line order. */
  lemma {:induction false} KeptOfNonBlank(f: string -> string, lines: seq<string>)
    requires forall i :: 0 <= i < |lines| ==> !Blank(lines[i])
    ensures |Kept(f, lines)| == |lines|
    ensures forall i :: 0 <= i < |lines| ==> Kept(f, lines)[i] == f(lines[i])
    decreases |lines|
  {
    if lines != [] {
      var tail := lines[1..];
      forall i | 0 <= i < |tail| ensures !Blank(tail[i]) {
        assert tail[i] == lines[i + 1];
      }
      KeptOfNonBlank(f, tail);
      var items := Kept(f, lines);
      assert items == [f(lines[0])] + Kept(f, tail);
      forall i | 0 < i < |lines| ensures items[i] == f(lines[i]) {
        assert items[i] == Kept(f, tail)[i - 1] && tail[i - 1] == lines[i];
      }
    }
  }
}
