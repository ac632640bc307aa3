/** Wrapping of help texts (common/arg.cpp, break_str_into_lines). */
module LineWrap {

  // ---------------------------------------------------------------- lines and words

  function IndexOf(s: string, c: char): (i: nat)
    ensures i <= |s| && c !in s[..i] && (i < |s| ==> s[i] == c)
  {
    if s == "" || s[0] == c then 0
    else
      var i := IndexOf(s[1..], c);
      assert s[..i + 1] == [s[0]] + s[1..][..i];
      1 + i
  }

  /** std::getline until the input ends: a newline at the very end starts no further line. */
  function Lines(s: string): seq<string>
    decreases |s|
  {
    if s == "" then []
    else
      var i := IndexOf(s, '\n');
      if i == |s| then [s] else [s[..i]] + Lines(s[i + 1..])
  }

  predicate IsSpace(c: char) {
    c == ' ' || c == '\t' || c == '\n' || c == 0xb as char || c == 0xc as char || c == '\r'
  }

  /** The blank and the five characters from the tabulator to the carriage return, as in the C locale. */
  lemma SpacesAre(c: char)
    ensures IsSpace(c) <==> c as int == 32 || 9 <= c as int <= 13
  {
  }

  predicate IsWord(w: string) {
    w != "" && forall i :: 0 <= i < |w| ==> !IsSpace(w[i])
  }

  predicate AllWords(ws: seq<string>) {
    forall i :: 0 <= i < |ws| ==> IsWord(ws[i])
  }

  /** The length of the leading run of characters that are no spaces. */
  function WordLength(s: string): (n: nat)
    ensures n <= |s| && (forall i :: 0 <= i < n ==> !IsSpace(s[i])) && (n < |s| ==> IsSpace(s[n]))
  {
    if s == "" || IsSpace(s[0]) then 0 else 1 + WordLength(s[1..])
  }

  /** What reading with `>>` yields: the maximal runs of characters that are no spaces. */
  function Words(s: string): (r: seq<string>)
    ensures AllWords(r)
    decreases |s|
  {
    if s == "" then []
    else if IsSpace(s[0]) then Words(s[1..])
    else [s[..WordLength(s)]] + Words(s[WordLength(s)..])
  }

  // ---------------------------------------------------------------- greedy lines

  /** Words on one line, with single spaces between them. */
  function Join(ws: seq<string>): string {
    if ws == [] then ""
    else if |ws| == 1 then ws[0]
    else Join(ws[..|ws| - 1]) + " " + ws[|ws| - 1]
  }

  function Joins(groups: seq<seq<string>>): (r: seq<string>)
    ensures |r| == |groups| && forall i :: 0 <= i < |r| ==> r[i] == Join(groups[i])
  {
    seq(|groups|, i requires 0 <= i < |groups| => Join(groups[i]))
  }

  /** The length a line would get with one more word. */
  function Extended(line: seq<string>, w: string): nat {
    |Join(line)| + (if line != [] then 1 else 0) + |w|
  }

  /** The loop over the words, with `line` as the current line. */
  function Fill(line: seq<string>, ws: seq<string>, max: nat): seq<seq<string>>
    decreases |ws|
  {
    if ws == [] then (if line == [] then [] else [line])
    else if Extended(line, ws[0]) > max then (if line == [] then [] else [line]) + Fill([ws[0]], ws[1..], max)
    else Fill(line + [ws[0]], ws[1..], max)
  }

  function Greedy(ws: seq<string>, max: nat): seq<seq<string>> {
    Fill([], ws, max)
  }

  /** Short lines stay as they are; long ones are wrapped. */
  function Wrapped(line: string, max: nat): seq<string> {
    if |line| <= max then [line] else Joins(Greedy(Words(line), max))
  }

  function WrapAll(lines: seq<string>, max: nat): seq<string> {
    if lines == [] then [] else Wrapped(lines[0], max) + WrapAll(lines[1..], max)
  }

  lemma JoinEmpty(line: seq<string>)
    requires AllWords(line)
    ensures Join(line) == "" <==> line == []
  {
  }

  lemma JoinMore(line: seq<string>, w: string)
    ensures Join(line + [w]) == Join(line) + (if line == [] then "" else " ") + w
  {
    assert (line + [w])[..|line|] == line;
  }

  /** The lambda add_line. */
  method AddLine(result: seq<string>, l: string, max: nat) returns (r: seq<string>)
    ensures r == result + Wrapped(l, max)
  {
    r := result;
    if |l| <= max {
      return r + [l];
    }
    var words := Words(l);
    var currentLine := "";
    ghost var done: seq<seq<string>>, line: seq<string> := [], [];
    var i := 0;
    assert words[0..] == words && Join(line) == "";
    hide Join, Words, Fill, IsWord;
    while i < |words|
      invariant 0 <= i <= |words| && AllWords(line) && currentLine == Join(line)
      invariant r == result + Joins(done)
      invariant Greedy(words, max) == done + Fill(line, words[i..], max)
    {
      var word := words[i];
      assert words[i..][0] == word && words[i..][1..] == words[i + 1..] && IsWord(word);
      JoinEmpty(line);
      FillStep(done, line, words[i..], max);
      if |currentLine| + (if currentLine != "" then 1 else 0) + |word| > max {
        if currentLine != "" {
          r := r + [currentLine];
          JoinsMore(result, done, line);
          done := done + [line];
        }
        currentLine := word;
        line := [word];
      } else {
        JoinMore(line, word);
        currentLine := currentLine + (if currentLine != "" then " " else "") + word;
        line := line + [word];
      }
      i := i + 1;
    }
    assert words[i..] == [];
    JoinEmpty(line);
    FillEnd(done, line, max);
    if currentLine != "" {
      r := r + [currentLine];
      JoinsMore(result, done, line);
    }
  }

  lemma JoinsMore(before: seq<string>, done: seq<seq<string>>, line: seq<string>)
    ensures before + Joins(done) + [Join(line)] == before + Joins(done + [line])
  {
    assert Joins(done + [line]) == Joins(done) + [Join(line)];
  }

  /** One word: it starts a line, and the line before it is done, or it is added to the line. */
  lemma FillStep(done: seq<seq<string>>, line: seq<string>, ws: seq<string>, max: nat)
    requires ws != []
    ensures Join([ws[0]]) == ws[0]
    ensures done + Fill(line, ws, max) ==
            if Extended(line, ws[0]) > max then (if line == [] then done else done + [line])
                + Fill([ws[0]], ws[1..], max)
            else done + Fill(line + [ws[0]], ws[1..], max)
  {
    var rest := Fill([ws[0]], ws[1..], max);
    assert done + ([line] + rest) == done + [line] + rest && [] + rest == rest;
  }

  lemma FillEnd(done: seq<seq<string>>, line: seq<string>, max: nat)
    ensures done + Fill(line, [], max) == if line == [] then done else done + [line]
  {
    assert done + [] == done;
  }

  /** break_str_into_lines. */
  method BreakStrIntoLines(input: string, max: nat) returns (result: seq<string>)
    ensures result == WrapAll(Lines(input), max)
  {
    var lines := Lines(input);
    result := [];
    var i := 0;
    while i < |lines|
      invariant 0 <= i <= |lines|
      invariant WrapAll(lines, max) == result + WrapAll(lines[i..], max)
    {
      assert lines[i..][0] == lines[i] && lines[i..][1..] == lines[i + 1..];
      assert result + (Wrapped(lines[i], max) + WrapAll(lines[i + 1..], max))
          == result + Wrapped(lines[i], max) + WrapAll(lines[i + 1..], max);
      result := AddLine(result, lines[i], max);
      i := i + 1;
    }
    assert lines[i..] == [];
  }

  // ---------------------------------------------------------------- what greedy lines achieve

  function Concat(groups: seq<seq<string>>): seq<string> {
    if groups == [] then [] else groups[0] + Concat(groups[1..])
  }

  /** A line that fits, or one word that cannot. */
  predicate Fits(line: seq<string>, max: nat) {
    line != [] && (|Join(line)| <= max || |line| == 1)
  }

  predicate AllFit(groups: seq<seq<string>>, max: nat) {
    forall i :: 0 <= i < |groups| ==> Fits(groups[i], max)
  }

  /** A way to break the words into lines. */
  predicate Legal(groups: seq<seq<string>>, ws: seq<string>, max: nat) {
    Concat(groups) == ws && AllFit(groups, max)
  }

  /** How many words the current line still takes. */
  function Takes(line: seq<string>, ws: seq<string>, max: nat): (t: nat)
    ensures t <= |ws|
    decreases |ws|
  {
    if ws == [] || Extended(line, ws[0]) > max then 0 else 1 + Takes(line + [ws[0]], ws[1..], max)
  }

  /** The first line takes as many words as fit, and the rest is filled in the same way. */
  lemma {:induction false} FillTakes(line: seq<string>, ws: seq<string>, max: nat)
    requires line != []
    ensures var t := Takes(line, ws, max);
            && Fill(line, ws, max) == [line + ws[..t]] + Greedy(ws[t..], max)
            && (t > 0 ==> |Join(line + ws[..t])| <= max)
            && (t < |ws| ==> |Join(line + ws[..t + 1])| > max)
    decreases |ws|
  {
    hide Join;
    if ws == [] {
      assert line + [] == line;
    } else {
      var w, rest := ws[0], ws[1..];
      JoinMore(line, w);
      if Extended(line, w) > max {
        assert ws[..1] == [w] && line + ws[..0] == line && ws[0..] == ws;
        StartsFresh(ws, max);
      } else {
        var t := Takes(line + [w], rest, max);
        FillTakes(line + [w], rest, max);
        TakeOneMore(line, ws, t);
        hide Fill, Takes;
        if t == 0 {
          assert line + [w] + rest[..0] == line + [w];
        } else {
          assert |Join(line + ws[..t + 1])| <= max;
        }
      }
    }
  }

  lemma TakeOneMore(line: seq<string>, ws: seq<string>, t: nat)
    requires t < |ws|
    ensures line + ws[..t + 1] == line + [ws[0]] + ws[1..][..t] && ws[t + 1..] == ws[1..][t..]
    ensures t + 1 < |ws| ==> line + ws[..t + 2] == line + [ws[0]] + ws[1..][..t + 1]
  {
  }

  /** A new line starts with its first word, long or not. */
  lemma StartsFresh(ws: seq<string>, max: nat)
    requires ws != []
    ensures Greedy(ws, max) == Fill([ws[0]], ws[1..], max)
  {
    assert [] + [ws[0]] == [ws[0]];
  }

  /** The words in the first greedy line. */
  function FirstLine(ws: seq<string>, max: nat): (t: nat)
    requires ws != []
    ensures 0 < t <= |ws|
  {
    1 + Takes([ws[0]], ws[1..], max)
  }

  lemma GreedyStep(ws: seq<string>, max: nat)
    requires ws != []
    ensures var t := FirstLine(ws, max);
            && Greedy(ws, max) == [ws[..t]] + Greedy(ws[t..], max)
            && Fits(ws[..t], max)
            && (t < |ws| ==> |Join(ws[..t + 1])| > max)
  {
    hide Fill, Greedy, Takes, Join;
    StartsFresh(ws, max);
    FillTakes([ws[0]], ws[1..], max);
    var t := Takes([ws[0]], ws[1..], max);
    assert ws[..t + 1] == [ws[0]] + ws[1..][..t] && ws[t + 1..] == ws[1..][t..];
    assert t < |ws| - 1 ==> ws[..t + 2] == [ws[0]] + ws[1..][..t + 1];
  }

  /** Greedy lines keep the words in order, and each fits or is one overlong word. */
  lemma {:induction false} GreedyIsLegal(ws: seq<string>, max: nat)
    ensures Legal(Greedy(ws, max), ws, max)
    decreases |ws|
  {
    if ws != [] {
      var t := FirstLine(ws, max);
      GreedyStep(ws, max);
      GreedyIsLegal(ws[t..], max);
      var rest := Greedy(ws[t..], max);
      var all := [ws[..t]] + rest;
      assert all[1..] == rest && ws[..t] + ws[t..] == ws;
      assert forall i :: 0 < i < |all| ==> all[i] == rest[i - 1];
    }
  }

  lemma {:induction false} JoinPrefix(ws: seq<string>, k: nat)
    requires k <= |ws|
    ensures |Join(ws[..k])| <= |Join(ws)|
    decreases |ws|
  {
    if k < |ws| {
      var init := ws[..|ws| - 1];
      JoinPrefix(init, k);
      assert init[..k] == ws[..k] && ws == init + [ws[|ws| - 1]];
      JoinMore(init, ws[|ws| - 1]);
    } else {
      assert ws[..k] == ws;
    }
  }

  lemma {:induction false} JoinSuffix(ws: seq<string>, k: nat)
    requires k <= |ws|
    ensures |Join(ws[k..])| <= |Join(ws)|
    decreases |ws|
  {
    if k < |ws| {
      var init, last := ws[..|ws| - 1], ws[|ws| - 1];
      JoinSuffix(init, k);
      assert ws[k..] == init[k..] + [last] && ws == init + [last];
      JoinMore(init, last);
      JoinMore(init[k..], last);
    }
  }

  /** Starting later never needs more lines than any legal split needs. */
  lemma {:induction false} NoMoreLines(groups: seq<seq<string>>, ws: seq<string>, k: nat, max: nat)
    requires Legal(groups, ws, max) && k <= |ws|
    ensures |Greedy(ws[k..], max)| <= |groups|
    decreases |groups|
  {
    hide Join, Fits, Takes, Fill;
    if groups == [] {
      assert ws[k..] == [];
      GreedyNothing(max);
    } else {
      assert AllFit(groups[1..], max) && Fits(groups[0], max);
      var e, rest := |groups[0]|, Concat(groups[1..]);
      assert Legal(groups[1..], rest, max);
      assert ws == groups[0] + rest;
      if k >= e {
        NoMoreLines(groups[1..], rest, k - e, max);
        assert ws[k..] == rest[k - e..];
      } else {
        var v := ws[k..];
        var t := FirstLine(v, max);
        GreedyStep(v, max);
        FirstGroupFits(groups[0], rest, ws, k, t, max);
        NoMoreLines(groups[1..], rest, k + t - e, max);
        assert v[t..] == rest[k + t - e..];
      }
    }
  }

  lemma GreedyNothing(max: nat)
    ensures Greedy([], max) == []
  {
  }

  /** The greedy line reaches at least as far as the line of the split that it starts in. */
  lemma FirstGroupFits(g: seq<string>, rest: seq<string>, ws: seq<string>, k: nat, t: nat, max: nat)
    requires Fits(g, max) && ws == g + rest && k < |g| && 0 < t <= |ws| - k
    requires t < |ws| - k ==> |Join(ws[k..][..t + 1])| > max
    ensures k + t >= |g|
  {
    if k + t < |g| {
      assert ws[k..][..t + 1] == g[k..][..t + 1];
      JoinPrefix(g[k..], t + 1);
      JoinSuffix(g, k);
    }
  }

  /** No way to break the words into lines uses fewer lines. */
  lemma GreedyIsMinimal(groups: seq<seq<string>>, ws: seq<string>, max: nat)
    requires Legal(groups, ws, max)
    ensures |Greedy(ws, max)| <= |groups|
  {
    NoMoreLines(groups, ws, 0, max);
    assert ws[0..] == ws;
  }

  // ---------------------------------------------------------------- back to words

  lemma {:induction false} WordAlone(w: string, tail: string)
    requires IsWord(w) && (tail == "" || IsSpace(tail[0]))
    ensures WordLength(w + tail) == |w| && Words(w + tail) == [w] + Words(tail)
  {
    var s := w + tail;
    var n := WordLength(s);
    assert forall i :: 0 <= i < |w| ==> s[i] == w[i];
    if tail != "" {
      assert s[|w|] == tail[0];
    }
    assert s[..|w|] == w && s[|w|..] == tail;
  }

  /** Reading a line back gives its words. */
  lemma {:induction false} WordsOfJoin(ws: seq<string>)
    requires AllWords(ws)
    ensures Words(Join(ws)) == ws
    decreases |ws|
  {
    if |ws| >= 1 {
      JoinFront(ws);
      var rest := ws[1..];
      WordsOfJoin(rest);
      var tail := if rest == [] then "" else " " + Join(rest);
      WordAlone(ws[0], tail);
      assert rest != [] ==> tail[1..] == Join(rest);
      assert ws == [ws[0]] + rest;
      assert Join(ws) == ws[0] + tail;
    }
  }

  lemma {:induction false} JoinFront(ws: seq<string>)
    requires ws != []
    ensures Join(ws) == ws[0] + if |ws| == 1 then "" else " " + Join(ws[1..])
    decreases |ws|
  {
    if |ws| == 1 {
      assert ws[0] + "" == ws[0];
    } else {
      var init, last := ws[..|ws| - 1], ws[|ws| - 1];
      JoinFront(init);
      assert init[0] == ws[0] && ws[1..] == init[1..] + [last];
      JoinMore(init[1..], last);
      assert Join(ws) == Join(init) + " " + last;
      hide Join;
      if |init| == 1 {
        assert init[1..] == [];
        Glue(ws[0], "", "", last);
      } else {
        Glue(ws[0], " ", Join(init[1..]), last);
      }
    }
  }

  lemma Glue(a: string, b: string, c: string, d: string)
    ensures a + (b + c) + " " + d == a + (b + (c + " " + d)) && a + "" + " " + d == a + (" " + ("" + "" + d))
  {
  }

  function WordsOfAll(lines: seq<string>): seq<string> {
    if lines == [] then [] else Words(lines[0]) + WordsOfAll(lines[1..])
  }

  lemma {:induction false} WordsOfJoins(groups: seq<seq<string>>)
    requires AllWords(Concat(groups))
    ensures WordsOfAll(Joins(groups)) == Concat(groups)
    decreases |groups|
  {
    if groups != [] {
      var c, g, rest := Concat(groups), groups[0], Concat(groups[1..]);
      assert forall i :: 0 <= i < |g| ==> g[i] == c[i];
      assert forall i :: 0 <= i < |rest| ==> rest[i] == c[|g| + i];
      WordsOfJoin(g);
      WordsOfJoins(groups[1..]);
      assert Joins(groups)[1..] == Joins(groups[1..]);
    }
  }

  /**
   Wrapping one line: its words come out in order, every output line is as long as allowed at most
   unless it is a single word, and no split of the words into such lines is shorter.
   */
  lemma WrappedIsBest(line: string, max: nat, groups: seq<seq<string>>)
    ensures WordsOfAll(Wrapped(line, max)) == Words(line)
    ensures forall l :: l in Wrapped(line, max) ==> |l| <= max || IsWord(l)
    ensures |line| > max && Legal(groups, Words(line), max) ==> |Wrapped(line, max)| <= |groups|
  {
    if |line| <= max {
      assert WordsOfAll([line]) == Words(line) + WordsOfAll([line][1..]);
    } else {
      var ws := Words(line);
      var g := Greedy(ws, max);
      GreedyIsLegal(ws, max);
      WordsOfJoins(g);
      forall l | l in Joins(g)
        ensures |l| <= max || IsWord(l)
      {
        var i :| 0 <= i < |g| && l == Join(g[i]);
        GroupWords(g, i);
      }
      if Legal(groups, ws, max) {
        GreedyIsMinimal(groups, ws, max);
      }
    }
  }

  lemma {:induction false} GroupWords(groups: seq<seq<string>>, i: nat)
    requires i < |groups| && AllWords(Concat(groups))
    ensures AllWords(groups[i])
    decreases |groups|
  {
    var c, g, rest := Concat(groups), groups[0], Concat(groups[1..]);
    assert forall k :: 0 <= k < |g| ==> g[k] == c[k];
    assert forall k :: 0 <= k < |rest| ==> rest[k] == c[|g| + k];
    if i > 0 {
      GroupWords(groups[1..], i - 1);
    }
  }

  // ---------------------------------------------------------------- what is read

  /** Lines with newlines between them. */
  function JoinLines(lines: seq<string>): string {
    if lines == [] then ""
    else if |lines| == 1 then lines[0]
    else lines[0] + "\n" + JoinLines(lines[1..])
  }

  /** The newline that ends a text and starts no further line. */
  function LastNewline(s: string): string {
    if s != "" && s[|s| - 1] == '\n' then "\n" else ""
  }

  /** No line is lost or changed: joined by newlines the lines are the text, but for one newline at its end. */
  lemma {:induction false} LinesJoined(s: string)
    ensures s == JoinLines(Lines(s)) + LastNewline(s)
    ensures forall i :: 0 <= i < |Lines(s)| ==> '\n' !in Lines(s)[i]
    ensures Lines(s) == [] <==> s == ""
    decreases |s|
  {
    hide JoinLines, LastNewline;
    if s == "" {
      NothingJoined();
    } else {
      var i := IndexOf(s, '\n');
      assert '\n' !in s[..i];
      if i < |s| {
        LinesJoined(s[i + 1..]);
        OneMoreLine(s, i, Lines(s[i + 1..]));
      } else {
        assert s[..i] == s;
        LoneLine(s);
      }
    }
  }

  lemma NothingJoined()
    ensures JoinLines([]) == "" && LastNewline("") == "" && "" == JoinLines([]) + LastNewline("")
  {
  }

  lemma LoneLine(s: string)
    requires '\n' !in s
    ensures s == JoinLines([s]) + LastNewline(s)
  {
    assert s + "" == s;
  }

  lemma OneMoreLine(s: string, i: nat, rest: seq<string>)
    requires i < |s| && s[i] == '\n' && s[i + 1..] == JoinLines(rest) + LastNewline(s[i + 1..])
    requires rest == [] <==> s[i + 1..] == ""
    ensures s == JoinLines([s[..i]] + rest) + LastNewline(s)
  {
    var line, tail := s[..i], s[i + 1..];
    assert s == line + "\n" + tail;
    var all := [line] + rest;
    assert all[1..] == rest && all[0] == line;
    if rest == [] {
      assert s == line + "\n";
    } else {
      assert s[|s| - 1] == tail[|tail| - 1];
      assert JoinLines(all) == line + "\n" + JoinLines(rest);
      RegroupLine(line, JoinLines(rest), LastNewline(tail));
    }
  }

  lemma RegroupLine(line: string, joined: string, last: string)
    ensures line + "\n" + (joined + last) == line + "\n" + joined + last
  {
  }

  /** A line that fits comes out as it is. */
  lemma ShortLineStays(line: string, max: nat)
    requires |line| <= max
    ensures Wrapped(line, max) == [line]
  {
  }

  /** So a text whose lines all fit comes out line by line, blank and indented lines included. */
  lemma {:induction false} ShortLinesStay(lines: seq<string>, max: nat)
    requires forall i :: 0 <= i < |lines| ==> |lines[i]| <= max
    ensures WrapAll(lines, max) == lines
  {
    if lines != [] {
      ShortLineStays(lines[0], max);
      ShortLinesStay(lines[1..], max);
      assert [lines[0]] + lines[1..] == lines;
    }
  }

  /** Words end exactly at spaces: a text without spaces is one word, and a space separates what is around it. */
  lemma WordsOfOne(w: string)
    ensures Words("") == []
    ensures IsWord(w) ==> Words(w) == [w]
  {
    if IsWord(w) {
      WholeWord(w);
      assert w[..|w|] == w && w[|w|..] == "";
    }
  }

  lemma WholeWord(w: string)
    requires forall i :: 0 <= i < |w| ==> !IsSpace(w[i])
    ensures WordLength(w) == |w|
  {
  }

  lemma {:induction false} WordsAround(a: string, c: char, b: string)
    requires IsSpace(c)
    ensures Words(a + [c] + b) == Words(a) + Words(b)
    decreases |a|
  {
    hide WordLength, IsSpace;
    var s := a + [c] + b;
    if a == "" {
      assert s[0] == c && s[1..] == b;
      assert Words(b) == [] + Words(b);
    } else if IsSpace(a[0]) {
      WordsAround(a[1..], c, b);
      assert s[0] == a[0] && s[1..] == a[1..] + [c] + b;
    } else {
      var n := WordLength(a);
      FirstWordBefore(a, c, b);
      SomeLetters(a);
      WordsAround(a[n..], c, b);
      RegroupWords(a[..n], Words(a[n..]), Words(b));
    }
  }

  lemma SomeLetters(a: string)
    requires a != "" && !IsSpace(a[0])
    ensures WordLength(a) > 0
  {
  }

  lemma RegroupWords(w: string, x: seq<string>, y: seq<string>)
    ensures [w] + (x + y) == [w] + x + y
  {
  }

  lemma FirstWordBefore(a: string, c: char, b: string)
    requires IsSpace(c) && a != ""
    ensures var s, n := a + [c] + b, WordLength(a);
            s[0] == a[0] && WordLength(s) == n && s[..n] == a[..n] && s[n..] == a[n..] + [c] + b
  {
    hide IsSpace, WordLength;
    var s, n := a + [c] + b, WordLength(a);
    assert forall i :: 0 <= i < n ==> s[i] == a[i];
    assert s[n] == if n < |a| then a[n] else c;
    WordLengthIs(s, n);
  }

  lemma WordLengthIs(s: string, n: nat)
    requires n < |s| && IsSpace(s[n]) && forall i :: 0 <= i < n ==> !IsSpace(s[i])
    ensures WordLength(s) == n
  {
  }
}
