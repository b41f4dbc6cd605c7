/** Character-level text operations the formatter relies on: `str::trim`, `str::find` for a single
    character, and the line splitting of a buffered reader. */
module Text {
  import opened Prelude

  /** The code point ranges of Unicode's White_Space property, the characters
      `char::is_whitespace` accepts. */
  const WHITE_SPACE_RANGES: seq<(int, int)> := [
    (0x09, 0x0D), (0x20, 0x20), (0x85, 0x85), (0xA0, 0xA0), (0x1680, 0x1680),
    (0x2000, 0x200A), (0x2028, 0x2029), (0x202F, 0x202F), (0x205F, 0x205F), (0x3000, 0x3000)]

  predicate InRanges(n: int, ranges: seq<(int, int)>) {
    ranges != [] && ((ranges[0].0 <= n <= ranges[0].1) || InRanges(n, ranges[1..]))
  }

  predicate IsWhitespace(c: char) {
    InRanges(c as int, WHITE_SPACE_RANGES)
  }

  lemma {:induction false} InRangesAbove(n: int, ranges: seq<(int, int)>)
    requires forall k :: 0 <= k < |ranges| ==> n < ranges[k].0
    ensures !InRanges(n, ranges)
  {
    if ranges != [] {
      InRangesAbove(n, ranges[1..]);
    }
  }

  /** Below U+0085 the whitespace characters are tab, line feed, vertical tab, form feed,
      carriage return and space. */
  lemma AsciiWhitespace(c: char)
    requires c as int < 0x85
    ensures IsWhitespace(c) <==> ('\t' <= c <= '\r' || c == ' ')
  {
    var ranges := WHITE_SPACE_RANGES;
    var n := c as int;
    assert IsWhitespace(c) == ((0x09 <= n <= 0x0D) || InRanges(n, ranges[1..]));
    assert InRanges(n, ranges[1..]) == ((0x20 <= n <= 0x20) || InRanges(n, ranges[1..][1..]));
    assert ranges[1..][1..] == ranges[2..];
    InRangesAbove(n, ranges[2..]);
  }

  predicate AllWhitespace(s: string) {
    forall i :: 0 <= i < |s| ==> IsWhitespace(s[i])
  }

  /** Neither end of s is whitespace. */
  predicate IsTrimmed(s: string) {
    s == [] || (!IsWhitespace(s[0]) && !IsWhitespace(s[|s| - 1]))
  }

  /** s without its leading whitespace. */
  function TrimStart(s: string): (r: string)
    ensures |r| <= |s|
    ensures r == s[|s| - |r|..]
    ensures r == [] || !IsWhitespace(r[0])
  {
    if s != [] && IsWhitespace(s[0]) then TrimStart(s[1..]) else s
  }

  /** s without its trailing whitespace. */
  function TrimEnd(s: string): (r: string)
    ensures |r| <= |s|
    ensures r == s[..|r|]
    ensures r == [] || !IsWhitespace(r[|r| - 1])
  {
    if s != [] && IsWhitespace(s[|s| - 1]) then TrimEnd(s[..|s| - 1]) else s
  }

  /** `str::trim`: s without its leading and trailing whitespace. */
  function Trim(s: string): (r: string)
    ensures IsTrimmed(r)
    ensures |r| <= |s|
    ensures IsTrimmed(s) ==> r == s
  {
    TrimEnd(TrimStart(s))
  }

  lemma WhitespaceCons(c: char, w: string)
    requires IsWhitespace(c) && AllWhitespace(w)
    ensures AllWhitespace([c] + w)
  {
  }

  lemma WhitespaceSnoc(w: string, c: char)
    requires AllWhitespace(w) && IsWhitespace(c)
    ensures AllWhitespace(w + [c])
  {
  }

  /** A text that splits after its first character, with the rest split in two. */
  lemma ConsSplit(s: string, front: string, t: string)
    requires s != [] && s[1..] == front + t
    ensures s == [s[0]] + front + t
  {
    assert s == [s[0]] + s[1..];
  }

  /** A text that splits before its last character, with the rest split in two. */
  lemma SnocSplit(s: string, r: string, back: string)
    requires s != [] && s[..|s| - 1] == r + back
    ensures s == r + (back + [s[|s| - 1]])
  {
    assert s == s[..|s| - 1] + [s[|s| - 1]];
  }

  /** TrimStart takes away whitespace in front of s and nothing else. */
  lemma {:induction false} TrimStartSplit(s: string) returns (front: string)
    ensures s == front + TrimStart(s) && AllWhitespace(front)
    decreases |s|
  {
    if s != [] && IsWhitespace(s[0]) {
      var t := TrimStart(s[1..]);
      var rest := TrimStartSplit(s[1..]);
      front := [s[0]] + rest;
      assert s == front + t by {
        ConsSplit(s, rest, t);
      }
      assert AllWhitespace(front) by {
        WhitespaceCons(s[0], rest);
      }
      assert TrimStart(s) == t;
    } else {
      front := [];
    }
  }

  /** TrimEnd takes away whitespace behind s and nothing else. */
  lemma {:induction false} TrimEndSplit(s: string) returns (back: string)
    ensures s == TrimEnd(s) + back && AllWhitespace(back)
    decreases |s|
  {
    if s != [] && IsWhitespace(s[|s| - 1]) {
      var r := TrimEnd(s[..|s| - 1]);
      var rest := TrimEndSplit(s[..|s| - 1]);
      back := rest + [s[|s| - 1]];
      assert s == r + back by {
        SnocSplit(s, r, rest);
      }
      assert AllWhitespace(back) by {
        WhitespaceSnoc(rest, s[|s| - 1]);
      }
      assert TrimEnd(s) == r;
    } else {
      back := [];
    }
  }

  /** Trimming takes only whitespace away, and only from the two ends: s is the trimmed text
      with some whitespace in front of it and some behind it. */
  lemma TrimSplit(s: string) returns (front: string, back: string)
    ensures s == front + Trim(s) + back
    ensures AllWhitespace(front) && AllWhitespace(back)
  {
    front := TrimStartSplit(s);
    back := TrimEndSplit(TrimStart(s));
    Assoc(front, TrimEnd(TrimStart(s)), back);
  }

  /** `str::find` for one character: the index of the first occurrence of c in s. */
  function IndexOf(s: string, c: char): (r: Option<nat>)
    ensures r.Some? ==> r.value < |s| && s[r.value] == c
  {
    if s == [] then None
    else if s[0] == c then Some(0)
    else
      match IndexOf(s[1..], c)
      case None => None
      case Some(i) => Some(i + 1)
  }

  /** IndexOf finds the first occurrence, and finds none only when there is none. */
  lemma {:induction false} IndexOfFirst(s: string, c: char)
    ensures IndexOf(s, c).Some? ==> forall j :: 0 <= j < IndexOf(s, c).value ==> s[j] != c
    ensures IndexOf(s, c).None? <==> forall j :: 0 <= j < |s| ==> s[j] != c
  {
    if s != [] && s[0] != c {
      IndexOfFirst(s[1..], c);
    }
  }

  /** The first occurrence of c in s is the one with no c before it. */
  lemma {:induction false} IndexOfAt(s: string, c: char, k: nat)
    requires k < |s| && s[k] == c
    requires forall j :: 0 <= j < k ==> s[j] != c
    ensures IndexOf(s, c) == Some(k)
  {
    if k > 0 {
      IndexOfAt(s[1..], c, k - 1);
    }
  }

  /** Regrouping a concatenation of three texts. */
  lemma Assoc(a: string, b: string, c: string)
    ensures a + b + c == a + (b + c)
  {
  }

  /** Regrouping a concatenation of four texts. */
  lemma Regroup(a: string, b: string, c: string, d: string)
    ensures a + b + c + d == a + (b + c + d)
  {
  }

  predicate EndsWithLineFeed(s: string) {
    s != [] && s[|s| - 1] == '\n'
  }

  lemma {:induction false} TrimStartPadded(w: string, v: string)
    requires AllWhitespace(w)
    requires v == [] || !IsWhitespace(v[0])
    ensures TrimStart(w + v) == v
    decreases |w|
  {
    if w != [] {
      assert (w + v)[1..] == w[1..] + v;
      TrimStartPadded(w[1..], v);
    } else {
      assert w + v == v;
    }
  }

  /** Whitespace put in front of a trimmed text is what trimming takes away again. */
  lemma TrimPadded(w: string, v: string)
    requires AllWhitespace(w)
    requires IsTrimmed(v)
    ensures Trim(w + v) == v
  {
    TrimStartPadded(w, v);
  }

  /** Trimming keeps only characters of s. */
  lemma TrimKeeps(s: string, c: char)
    ensures c in Trim(s) ==> c in s
  {
    var t := TrimStart(s);
    var r := TrimEnd(t);
    if c in r {
      var k :| 0 <= k < |r| && r[k] == c;
      assert t[k] == c;
      assert s[|s| - |t| + k] == c;
    }
  }

  /** A trimmed text without a line feed is a plain line, and trimming leaves it as it is. */
  lemma TrimmedIsPlain(s: string)
    requires IsTrimmed(s) && '\n' !in s
    ensures IsPlainLine(s) && Trim(s) == s
  {
    AsciiWhitespace('\r');
  }

  /** The text of one line as `BufRead::lines` yields it: a carriage return that stood
      right before the line feed is dropped along with it. */
  function DropCarriageReturn(line: string): string {
    if line != [] && line[|line| - 1] == '\r' then line[..|line| - 1] else line
  }

  /** The lines `BufRead::lines` yields for the text s: split at every line feed, the final
      line feed optional. */
  function Lines(s: string): seq<string>
    decreases |s|
  {
    if s == [] then []
    else
      match IndexOf(s, '\n')
      case None => [s]
      case Some(m) => [DropCarriageReturn(s[..m])] + Lines(s[m + 1..])
  }

  /** The text made of the given lines, each followed by a line feed. */
  function Unlines(lines: seq<string>): (s: string)
    ensures lines == [] ==> s == []
    ensures lines != [] ==> EndsWithLineFeed(s)
  {
    if lines == [] then [] else lines[0] + "\n" + Unlines(lines[1..])
  }

  lemma UnlinesOne(line: string)
    ensures Unlines([line]) == line + "\n"
  {
  }

  lemma {:induction false} UnlinesAppend(a: seq<string>, b: seq<string>)
    ensures Unlines(a + b) == Unlines(a) + Unlines(b)
  {
    if a == [] {
      assert a + b == b;
    } else {
      assert (a + b)[1..] == a[1..] + b;
      UnlinesAppend(a[1..], b);
    }
  }

  /** A line feed that ends the first line of s splits s into that line and the rest. */
  lemma LinesCons(x: string, s: string)
    requires '\n' !in x
    ensures Lines(x + "\n" + s) == [DropCarriageReturn(x)] + Lines(s)
  {
    var t := x + "\n" + s;
    assert t[..|x|] == x;
    assert t[|x| + 1..] == s;
    IndexOfAt(t, '\n', |x|);
  }

  /** A line that contains no line feed and does not end in a carriage return. */
  predicate IsPlainLine(line: string) {
    '\n' !in line && (line == [] || line[|line| - 1] != '\r')
  }

  /** Lines none of which holds a line feed or ends in a carriage return. */
  predicate AllPlain(lines: seq<string>) {
    forall i :: 0 <= i < |lines| ==> IsPlainLine(lines[i])
  }

  lemma OnePlain(lines: seq<string>)
    requires |lines| == 1 && IsPlainLine(lines[0])
    ensures AllPlain(lines)
  {
  }

  /** Plain lines followed by plain lines are plain lines. */
  lemma PlainLinesAppend(a: seq<string>, b: seq<string>)
    requires AllPlain(a) && AllPlain(b)
    ensures AllPlain(a + b)
  {
  }

  /** A non-empty trimmed text without a line feed behind blanks without a line feed is a plain
      line that trims back to the text. */
  lemma PaddedPlain(w: string, v: string)
    requires AllWhitespace(w) && '\n' !in w
    requires IsTrimmed(v) && v != [] && '\n' !in v
    ensures IsPlainLine(w + v) && Trim(w + v) == v
  {
    TrimPadded(w, v);
    AsciiWhitespace('\r');
    assert (w + v)[|w + v| - 1] == v[|v| - 1];
  }

  /** Reading back text made of plain lines gives those lines. */
  lemma {:induction false} LinesOfUnlines(lines: seq<string>)
    requires AllPlain(lines)
    ensures Lines(Unlines(lines)) == lines
  {
    if lines != [] {
      LinesCons(lines[0], Unlines(lines[1..]));
      LinesOfUnlines(lines[1..]);
    }
  }
}
