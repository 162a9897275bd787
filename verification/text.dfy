/** The string operations of the application: stripping surrounding
    whitespace from user input, repeated rule characters in the report,
    and joining lines. */
module Text {

  /** The characters Python's `str.isspace` accepts, which `str.strip()`
      with no argument removes. */
  predicate IsSpace(c: char) {
    || ('\t' <= c <= '\r') || ('\U{1C}' <= c <= '\U{1F}') || c == ' '
    || c == '\U{85}' || c == '\U{A0}' || c == '\U{1680}' || ('\U{2000}' <= c <= '\U{200A}')
    || c == '\U{2028}' || c == '\U{2029}' || c == '\U{202F}' || c == '\U{205F}' || c == '\U{3000}'
  }

  predicate AllSpace(s: string) {
    forall k :: 0 <= k < |s| ==> IsSpace(s[k])
  }

  /** `s` without its leading whitespace. */
  function StripStart(s: string): (r: string)
    ensures |r| <= |s| && r == s[|s| - |r|..]
    ensures AllSpace(s[..|s| - |r|])
    ensures r != [] ==> !IsSpace(r[0])
  {
    if s != [] && IsSpace(s[0]) then
      var r := StripStart(s[1..]);
      assert s[..|s| - |r|] == [s[0]] + s[1..][..|s| - 1 - |r|];
      r
    else s
  }

  /** `s` without its trailing whitespace. */
  function StripEnd(s: string): (r: string)
    ensures |r| <= |s| && r == s[..|r|]
    ensures AllSpace(s[|r|..])
    ensures r != [] ==> !IsSpace(r[|r| - 1])
  {
    if s != [] && IsSpace(s[|s| - 1]) then
      var r := StripEnd(s[..|s| - 1]);
      assert s[|r|..] == s[..|s| - 1][|r|..] + [s[|s| - 1]];
      r
    else s
  }

  /** `r` is `s[i..j]` and everything of `s` outside that slice is whitespace. */
  predicate TrimmedSlice(s: string, r: string, i: int, j: int)
  {
    0 <= i <= j <= |s| && r == s[i..j] && AllSpace(s[..i]) && AllSpace(s[j..])
  }

  /** Python's `s.strip()`. */
  function Strip(s: string): (r: string)
    ensures exists i, j :: TrimmedSlice(s, r, i, j)
    ensures r == [] <==> AllSpace(s)
    ensures r != [] ==> !IsSpace(r[0]) && !IsSpace(r[|r| - 1])
  {
    var front := StripStart(s);
    var r := StripEnd(front);
    SliceOfSuffix(s, front, r);
    assert TrimmedSlice(s, r, |s| - |front|, |s| - |front| + |r|);
    if r == [] then
      SpacesAround(s[..|s| - |front|], front);
      r
    else
      assert front[0] == s[|s| - |front|];
      r
  }

  /** A prefix `r` of a suffix `front` of `s` is a slice of `s`, and what
      follows `r` in `front` is what follows it in `s`. */
  lemma SliceOfSuffix<T>(s: seq<T>, front: seq<T>, r: seq<T>)
    requires |front| <= |s| && front == s[|s| - |front|..]
    requires |r| <= |front| && r == front[..|r|]
    ensures r == s[|s| - |front|..|s| - |front| + |r|]
    ensures s[|s| - |front| + |r|..] == front[|r|..]
  {
  }

  /** Whitespace followed by whitespace is whitespace. */
  lemma SpacesAround(a: string, b: string)
    requires AllSpace(a) && AllSpace(b)
    ensures AllSpace(a + b)
  {
    assert forall k :: 0 <= k < |a + b| ==> (a + b)[k] == if k < |a| then a[k] else b[k - |a|];
  }

  /** Stripping twice changes nothing more. */
  lemma StripIdempotent(s: string)
    ensures Strip(Strip(s)) == Strip(s)
  {
    var r := Strip(s);
    if r != [] {
      assert StripStart(r) == r;
      assert StripEnd(r) == r;
    }
  }

  /** `c` repeated `n` times, Python's `c * n`. */
  function Repeat(c: char, n: nat): (s: string)
    ensures |s| == n && forall k :: 0 <= k < n ==> s[k] == c
  {
    seq(n, _ => c)
  }

  /** The renderings of the items, one after another, in order. */
  function Concat<T>(items: seq<T>, render: T -> string): string {
    if items == [] then "" else Concat(items[..|items| - 1], render) + render(items[|items| - 1])
  }

  lemma {:induction false} ConcatAppend<T>(a: seq<T>, b: seq<T>, render: T -> string)
    ensures Concat(a + b, render) == Concat(a, render) + Concat(b, render)
    decreases |b|
  {
    if b == [] {
      assert a + b == a;
    } else {
      var b' := b[..|b| - 1];
      assert (a + b)[..|a + b| - 1] == a + b';
      ConcatAppend(a, b', render);
    }
  }

  lemma ConcatOne<T>(item: T, render: T -> string)
    ensures Concat([item], render) == render(item)
  {
    assert [item][..0] == [];
  }

  /** Rendering one more item of a list extends the rendering of the items before it. */
  lemma ConcatPrefixStep<T>(items: seq<T>, i: nat, render: T -> string)
    requires i < |items|
    ensures Concat(items[..i + 1], render) == Concat(items[..i], render) + render(items[i])
  {
    assert items[..i + 1][..i] == items[..i];
  }

  /** Each item's rendering stands between those of the items before and after it. */
  lemma ConcatAt<T>(items: seq<T>, i: nat, render: T -> string)
    requires i < |items|
    ensures Concat(items, render)
            == Concat(items[..i], render) + render(items[i]) + Concat(items[i + 1..], render)
  {
    var prefix, item, suffix := items[..i], items[i], items[i + 1..];
    SplitAround(items, i);
    ConcatAppend(prefix, [item] + suffix, render);
    ConcatAppend([item], suffix, render);
    ConcatOne(item, render);
  }

  lemma SplitAround<T>(s: seq<T>, i: nat)
    requires i < |s|
    ensures s == s[..i] + ([s[i]] + s[i + 1..])
  {
  }

  /** Each line followed by a newline, as text built with `+= line + "\n"`. */
  function Unlines(lines: seq<string>): string {
    if lines == [] then "" else Unlines(lines[..|lines| - 1]) + lines[|lines| - 1] + "\n"
  }

  /** Appending a sequence in two parts appends it whole. */
  lemma AppendAssociates<T>(a: seq<T>, b: seq<T>, c: seq<T>)
    ensures a + (b + c) == a + b + c
  {
  }

  /** One more line of a list extends the text of the lines before it. */
  lemma UnlinesPrefixStep(lines: seq<string>, i: nat)
    requires i < |lines|
    ensures Unlines(lines[..i + 1]) == Unlines(lines[..i]) + lines[i] + "\n"
  {
    assert lines[..i + 1][..i] == lines[..i];
  }

  /** The lines with a newline between each two, Python's `"\n".join(lines)`. */
  function JoinLines(lines: seq<string>): string {
    if |lines| == 0 then ""
    else if |lines| == 1 then lines[0]
    else JoinLines(lines[..|lines| - 1]) + "\n" + lines[|lines| - 1]
  }

  /** Lines that hold no newline, joined, have one newline between each two. */
  lemma {:induction false} JoinLinesCountsBreaks(lines: seq<string>)
    requires |lines| > 0
    requires forall i :: 0 <= i < |lines| ==> '\n' !in lines[i]
    ensures CountNewlines(JoinLines(lines)) == |lines| - 1
  {
    if |lines| == 1 {
      NoNewlineCount(lines[0]);
    } else {
      var init, last := lines[..|lines| - 1], lines[|lines| - 1];
      JoinLinesCountsBreaks(init);
      CountNewlinesAppend(JoinLines(init), "\n");
      CountNewlinesAppend(JoinLines(init) + "\n", last);
      NoNewlineCount(last);
    }
  }

  /** Joining a first line to the joined rest puts one newline between them. */
  lemma {:induction false} JoinLinesCons(first: string, rest: seq<string>)
    requires |rest| > 0
    ensures JoinLines([first] + rest) == first + "\n" + JoinLines(rest)
    decreases |rest|
  {
    var all := [first] + rest;
    assert all[..|all| - 1] == [first] + rest[..|rest| - 1];
    if |rest| == 1 {
      assert [first] + rest[..0] == [first];
    } else {
      JoinLinesCons(first, rest[..|rest| - 1]);
      var init := JoinLines(rest[..|rest| - 1]);
      AppendAssociates(first + "\n", init, "\n");
      AppendAssociates(first + "\n", init + "\n", rest[|rest| - 1]);
    }
  }

  /** Python's `s.split("\n")`: the pieces between the newlines, one more
      than there are newlines. */
  function SplitLines(s: string): (lines: seq<string>)
    ensures |lines| == CountNewlines(s) + 1
  {
    if s == [] then [[]]
    else
      var init := SplitLines(s[..|s| - 1]);
      if s[|s| - 1] == '\n' then init + [[]]
      else init[..|init| - 1] + [init[|init| - 1] + [s[|s| - 1]]]
  }

  /** Text without a newline extends the last piece. */
  lemma {:induction false} SplitAppendLine(a: string, b: string)
    requires '\n' !in b
    ensures var pieces := SplitLines(a);
            SplitLines(a + b) == pieces[..|pieces| - 1] + [pieces[|pieces| - 1] + b]
    decreases |b|
  {
    var pieces := SplitLines(a);
    var n := |pieces|;
    if b == [] {
      assert a + b == a;
      assert pieces[n - 1] + b == pieces[n - 1];
      assert pieces[..n - 1] + [pieces[n - 1]] == pieces;
    } else {
      var b', c := b[..|b| - 1], b[|b| - 1];
      assert b == b' + [c];
      assert a + b == (a + b') + [c];
      SplitAppendLine(a, b');
      var before := pieces[..n - 1] + [pieces[n - 1] + b'];
      assert before[..n - 1] == pieces[..n - 1];
      assert pieces[n - 1] + b' + [c] == pieces[n - 1] + b;
    }
  }

  /** A newline starts a new, empty piece. */
  lemma SplitAppendBreak(a: string)
    ensures SplitLines(a + "\n") == SplitLines(a) + [[]]
  {
    assert (a + "\n")[..|a|] == a;
  }

  /** Splitting joined lines that hold no newline gives the lines back. */
  lemma {:induction false} JoinThenSplit(lines: seq<string>)
    requires |lines| > 0
    requires forall i :: 0 <= i < |lines| ==> '\n' !in lines[i]
    ensures SplitLines(JoinLines(lines)) == lines
  {
    var last := lines[|lines| - 1];
    if |lines| == 1 {
      SplitOneLine(last);
    } else {
      var init := lines[..|lines| - 1];
      JoinThenSplit(init);
      JoinThenSplitStep(init, last);
      assert init + [last] == lines;
    }
  }

  /** A heading line above joined lines splits into the heading and the lines. */
  lemma SplitUnderHeading(heading: string, lines: seq<string>)
    requires '\n' !in heading
    requires |lines| > 0
    requires forall i :: 0 <= i < |lines| ==> '\n' !in lines[i]
    ensures SplitLines(heading + "\n" + JoinLines(lines)) == [heading] + lines
  {
    JoinLinesCons(heading, lines);
    var all := [heading] + lines;
    forall i | 0 <= i < |all| ensures '\n' !in all[i] {
      if i > 0 {
        assert all[i] == lines[i - 1];
      }
    }
    JoinThenSplit(all);
  }

  lemma SplitOneLine(line: string)
    requires '\n' !in line
    ensures SplitLines(line) == [line]
  {
    SplitAppendLine([], line);
    assert [] + line == line;
  }

  /** One more line without a newline, joined on, is split back off. */
  lemma JoinThenSplitStep(init: seq<string>, last: string)
    requires |init| > 0
    requires '\n' !in last
    requires SplitLines(JoinLines(init)) == init
    ensures SplitLines(JoinLines(init + [last])) == init + [last]
  {
    var lines := init + [last];
    var joined := JoinLines(init);
    assert lines[..|lines| - 1] == init;
    assert JoinLines(lines) == joined + "\n" + last;
    SplitAppendBreak(joined);
    var pieces := init + [[]];
    SplitAppendLine(joined + "\n", last);
    assert pieces[..|pieces| - 1] == init;
    assert pieces[|pieces| - 1] + last == last;
  }

  function CountNewlines(s: string): (n: nat)
    ensures n <= |s|
  {
    if s == [] then 0 else CountNewlines(s[..|s| - 1]) + (if s[|s| - 1] == '\n' then 1 else 0)
  }

  lemma {:induction false} CountNewlinesAppend(a: string, b: string)
    ensures CountNewlines(a + b) == CountNewlines(a) + CountNewlines(b)
    decreases |b|
  {
    if b == [] {
      assert a + b == a;
    } else {
      assert (a + b)[..|a + b| - 1] == a + b[..|b| - 1];
      CountNewlinesAppend(a, b[..|b| - 1]);
    }
  }

  /** Text made of lines that hold no newline has exactly one newline per line. */
  lemma {:induction false} UnlinesCountsLines(lines: seq<string>)
    requires forall i :: 0 <= i < |lines| ==> '\n' !in lines[i]
    ensures CountNewlines(Unlines(lines)) == |lines|
  {
    if lines != [] {
      var last := lines[|lines| - 1];
      UnlinesCountsLines(lines[..|lines| - 1]);
      CountNewlinesAppend(Unlines(lines[..|lines| - 1]), last);
      CountNewlinesAppend(Unlines(lines[..|lines| - 1]) + last, "\n");
      NoNewlineCount(last);
    }
  }

  lemma {:induction false} NoNewlineCount(s: string)
    requires '\n' !in s
    ensures CountNewlines(s) == 0
  {
    if s != [] {
      assert s[|s| - 1] in s;
      assert forall c :: c in s[..|s| - 1] ==> c in s;
      NoNewlineCount(s[..|s| - 1]);
    }
  }
}
