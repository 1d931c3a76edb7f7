/** `wrap` (replace-ssh-key.rb:128-133): the greedy word wrap the option
    descriptions go through. The text is split into words; each word joins
    the current line unless that would make the line longer than `maxwidth`,
    in which case it starts a new one. The first line starts empty, and a
    line is opened even when the current one is still empty, so a first word
    longer than `maxwidth` leaves the first line empty. */
module Wrap {
  import opened Text

  /** The width the script wraps option descriptions to by default. */
  const DefaultMaxWidth := 42

  /** The length of a line holding the words `g`, one space between each two. */
  function Width(g: seq<string>): nat {
    |Join(g, " ")|
  }

  lemma WidthSnoc(g: seq<string>, w: string)
    ensures Width(g + [w]) == if g == [] then |w| else Width(g) + 1 + |w|
  {
    JoinSnoc(g, w, " ");
  }

  predicate Fits(g: seq<string>, maxwidth: int) {
    Width(g) <= maxwidth
  }

  /** Dropping words from the end of a line never makes it wider. */
  lemma {:induction false} FitsPrefix(g: seq<string>, k: nat, maxwidth: int)
    requires k <= |g| && Fits(g, maxwidth)
    ensures Fits(g[..k], maxwidth)
    decreases |g|
  {
    if k < |g| {
      var init := g[..|g| - 1];
      assert g == init + [g[|g| - 1]];
      WidthSnoc(init, g[|g| - 1]);
      assert Fits(init, maxwidth);
      assert init[..k] == g[..k];
      FitsPrefix(init, k, maxwidth);
    } else {
      assert g[..k] == g;
    }
  }

  /** One step of the `reduce`: `w` goes on the last line if it still fits
      there, else on a new line. */
  function Step(groups: seq<seq<string>>, w: string, maxwidth: int): seq<seq<string>>
    requires |groups| >= 1
  {
    var last := groups[|groups| - 1];
    if !Fits(last + [w], maxwidth) then groups + [[w]]
    else groups[..|groups| - 1] + [last + [w]]
  }

  /** The lines, as word groups, that `wrap` builds from `words`. */
  function Groups(words: seq<string>, maxwidth: int): (r: seq<seq<string>>)
    ensures |r| >= 1
  {
    if words == [] then [[]]
    else Step(Groups(words[..|words| - 1], maxwidth), words[|words| - 1], maxwidth)
  }

  /** `line` may follow `prev`: it is nonempty, fits unless it is a single
      word, and its first word would not have fitted on `prev`. */
  predicate NextLine(prev: seq<string>, line: seq<string>, maxwidth: int) {
    && line != []
    && (|line| == 1 || Fits(line, maxwidth))
    && !Fits(prev + [line[0]], maxwidth)
  }

  predicate LinesFollow(groups: seq<seq<string>>, maxwidth: int) {
    forall i :: 1 <= i < |groups| ==> NextLine(groups[i - 1], groups[i], maxwidth)
  }

  lemma LinesFollowSnoc(init: seq<seq<string>>, line: seq<string>, maxwidth: int)
    requires |init| >= 1
    ensures LinesFollow(init + [line], maxwidth)
        <==> LinesFollow(init, maxwidth) && NextLine(init[|init| - 1], line, maxwidth)
  {
    var g := init + [line];
    assert forall i :: 0 <= i < |init| ==> g[i] == init[i];
    if LinesFollow(g, maxwidth) {
      assert NextLine(g[|init| - 1], g[|init|], maxwidth);
    }
  }

  /** What makes a grouping of `words` the greedy one: it keeps the words in
      order; the first line is empty or fits; every later line is nonempty
      and fits unless it is a single word; and each line ends only where the
      next word would not have fitted on it. */
  predicate WellGrouped(words: seq<string>, groups: seq<seq<string>>, maxwidth: int) {
    && |groups| >= 1
    && Flatten(groups) == words
    && (groups[0] == [] || Fits(groups[0], maxwidth))
    && LinesFollow(groups, maxwidth)
  }

  /** A `reduce` step keeps the grouping greedy. */
  lemma StepWellGrouped(words: seq<string>, groups: seq<seq<string>>, w: string, maxwidth: int)
    requires WellGrouped(words, groups, maxwidth)
    ensures WellGrouped(words + [w], Step(groups, w, maxwidth), maxwidth)
  {
    var n := |groups|;
    var last := groups[n - 1];
    if !Fits(last + [w], maxwidth) {
      FlattenSnoc(groups, [w]);
      LinesFollowSnoc(groups, [w], maxwidth);
    } else {
      var init := groups[..n - 1];
      assert groups == init + [last];
      FlattenSnoc(init, last);
      FlattenSnoc(init, last + [w]);
      if n > 1 {
        LinesFollowSnoc(init, last, maxwidth);
        LinesFollowSnoc(init, last + [w], maxwidth);
        assert (last + [w])[0] == last[0];
      }
    }
  }

  /** `Groups` is greedy. */
  lemma {:induction false} GroupsWellGrouped(words: seq<string>, maxwidth: int)
    ensures WellGrouped(words, Groups(words, maxwidth), maxwidth)
  {
    if words != [] {
      var init := words[..|words| - 1];
      GroupsWellGrouped(init, maxwidth);
      StepWellGrouped(init, Groups(init, maxwidth), words[|words| - 1], maxwidth);
      assert init + [words[|words| - 1]] == words;
    }
  }

  /** Undoes the last `reduce` step: takes the last word off the last line,
      and the line with it when it was that line's only word. */
  function Unstep(groups: seq<seq<string>>): seq<seq<string>>
    requires |groups| >= 1 && groups[|groups| - 1] != []
  {
    var last := groups[|groups| - 1];
    if |last| == 1 && |groups| >= 2 then groups[..|groups| - 1]
    else groups[..|groups| - 1] + [last[..|last| - 1]]
  }

  /** In a grouping of `words + [w]` the last line ends with `w`, and the
      lines with that word taken off hold `words`. */
  lemma LastWord(words: seq<string>, w: string, groups: seq<seq<string>>, maxwidth: int)
    requires WellGrouped(words + [w], groups, maxwidth)
    ensures var last := groups[|groups| - 1];
            && last != [] && last[|last| - 1] == w
            && Flatten(groups[..|groups| - 1]) + last[..|last| - 1] == words
  {
    var n := |groups|;
    if n >= 2 {
      assert NextLine(groups[n - 2], groups[n - 1], maxwidth);
    } else {
      assert Flatten(groups) == groups[0] + Flatten(groups[1..]);
    }
    LastLineSplit(words, w, groups);
  }

  lemma LastLineSplit(words: seq<string>, w: string, groups: seq<seq<string>>)
    requires |groups| >= 1 && groups[|groups| - 1] != [] && Flatten(groups) == words + [w]
    ensures var last := groups[|groups| - 1];
            last[|last| - 1] == w && Flatten(groups[..|groups| - 1]) + last[..|last| - 1] == words
  {
    var n := |groups|;
    var init, last := groups[..n - 1], groups[n - 1];
    assert groups == init + [last];
    FlattenSnoc(init, last);
    SnocSplit(Flatten(init), last, words, w);
  }

  /** When `f + last == words + [w]` and `last` is not empty, `w` ends `last`
      and the rest of `last` completes `words`. */
  lemma SnocSplit<T>(f: seq<T>, last: seq<T>, words: seq<T>, w: T)
    requires last != [] && f + last == words + [w]
    ensures last[|last| - 1] == w && f + last[..|last| - 1] == words
  {
    assert (f + last)[|f + last| - 1] == w;
    var body := last[..|last| - 1];
    assert last == body + [w];
    assert (f + body) + [w] == words + [w];
    assert f + body == ((f + body) + [w])[..|f + body|];
    assert words == (words + [w])[..|words|];
  }

  /** A greedy grouping of `words + [w]` is the step for `w` from a greedy
      grouping of `words`. */
  lemma UnstepWellGrouped(words: seq<string>, w: string, groups: seq<seq<string>>, maxwidth: int)
    requires WellGrouped(words + [w], groups, maxwidth)
    ensures groups[|groups| - 1] != []
    ensures WellGrouped(words, Unstep(groups), maxwidth)
    ensures groups == Step(Unstep(groups), w, maxwidth)
  {
    LastWord(words, w, groups, maxwidth);
    var last := groups[|groups| - 1];
    if |last| == 1 && |groups| >= 2 {
      DropLine(words, w, groups, maxwidth);
    } else {
      ShortenLine(words, w, groups, maxwidth);
    }
  }

  /** `UnstepWellGrouped` when `w` is alone on a line of its own. */
  lemma DropLine(words: seq<string>, w: string, groups: seq<seq<string>>, maxwidth: int)
    requires WellGrouped(words + [w], groups, maxwidth)
    requires |groups| >= 2 && groups[|groups| - 1] == [w]
    requires Flatten(groups[..|groups| - 1]) == words
    ensures WellGrouped(words, Unstep(groups), maxwidth)
    ensures groups == Step(Unstep(groups), w, maxwidth)
  {
  }

  /** `UnstepWellGrouped` when `w` ends a line with other words on it, or
      the first line. */
  lemma ShortenLine(words: seq<string>, w: string, groups: seq<seq<string>>, maxwidth: int)
    requires WellGrouped(words + [w], groups, maxwidth)
    requires var last := groups[|groups| - 1];
             && last != [] && last[|last| - 1] == w
             && Flatten(groups[..|groups| - 1]) + last[..|last| - 1] == words
    requires |groups[|groups| - 1]| >= 2 || |groups| == 1
    ensures WellGrouped(words, Unstep(groups), maxwidth)
    ensures groups == Step(Unstep(groups), w, maxwidth)
  {
    var n := |groups|;
    var init, last := groups[..n - 1], groups[n - 1];
    var body := last[..|last| - 1];
    assert groups == init + [last];
    assert body + [w] == last;
    FlattenSnoc(init, body);
    assert Unstep(groups) == init + [body];
    if n > 1 {
      assert NextLine(groups[n - 2], last, maxwidth);
      FitsPrefix(last, |body|, maxwidth);
      LinesFollowSnoc(init, last, maxwidth);
      LinesFollowSnoc(init, body, maxwidth);
      assert body[0] == last[0];
    } else {
      assert last == groups[0];
      FitsPrefix(last, |body|, maxwidth);
    }
  }

  /** The greedy grouping is unique: whatever is greedy is what `wrap` builds. */
  lemma {:induction false} WellGroupedUnique(words: seq<string>, groups: seq<seq<string>>, maxwidth: int)
    requires WellGrouped(words, groups, maxwidth)
    ensures groups == Groups(words, maxwidth)
    decreases |words|
  {
    if words == [] {
      forall i | 1 <= i < |groups|
        ensures groups[i] != []
      {
        assert NextLine(groups[i - 1], groups[i], maxwidth);
      }
      FlattenEmpty(groups);
    } else {
      var init, w := words[..|words| - 1], words[|words| - 1];
      assert init + [w] == words;
      UnstepWellGrouped(init, w, groups, maxwidth);
      WellGroupedUnique(init, Unstep(groups), maxwidth);
    }
  }

  lemma {:induction false} FlattenEmpty<T>(xss: seq<seq<T>>)
    requires Flatten(xss) == []
    ensures forall i :: 0 <= i < |xss| ==> xss[i] == []
  {
    if xss != [] {
      FlattenEmpty(xss[1..]);
      assert forall i :: 1 <= i < |xss| ==> xss[i] == xss[1..][i - 1];
    }
  }

  /** Words that `Words` can return: nonempty and blank-free. */
  predicate ValidWords(ws: seq<string>) {
    forall k :: 0 <= k < |ws| ==> ws[k] != [] && NoSpace(ws[k])
  }

  lemma {:induction false} ValidGroups(groups: seq<seq<string>>)
    requires ValidWords(Flatten(groups))
    ensures forall i :: 0 <= i < |groups| ==> ValidWords(groups[i])
  {
    if groups != [] {
      var f := Flatten(groups);
      assert f == groups[0] + Flatten(groups[1..]);
      assert forall k :: 0 <= k < |groups[0]| ==> groups[0][k] == f[k];
      assert forall k :: 0 <= k < |Flatten(groups[1..])| ==> Flatten(groups[1..])[k] == f[|groups[0]| + k];
      ValidGroups(groups[1..]);
      assert forall i :: 1 <= i < |groups| ==> groups[i] == groups[1..][i - 1];
    }
  }

  /** The words of each output line. */
  function LineWords(lines: seq<string>): (r: seq<seq<string>>)
    ensures |r| == |lines|
    ensures forall i :: 0 <= i < |lines| ==> r[i] == Words(lines[i])
  {
    seq(|lines|, i requires 0 <= i < |lines| => Words(lines[i]))
  }

  /** The first line is empty exactly when there are no words or the first
      word alone is wider than `maxwidth`. */
  lemma {:induction false} FirstLineEmpty(words: seq<string>, maxwidth: int)
    ensures Groups(words, maxwidth)[0] == [] <==> words == [] || |words[0]| > maxwidth
  {
    var groups := Groups(words, maxwidth);
    GroupsWellGrouped(words, maxwidth);
    assert Flatten(groups) == groups[0] + Flatten(groups[1..]);
    if words != [] {
      if groups[0] == [] {
        assert NextLine(groups[0], groups[1], maxwidth);
        assert Flatten(groups[1..]) == groups[1] + Flatten(groups[2..]);
        assert [] + [groups[1][0]] == [words[0]];
      } else {
        assert groups[0][0] == words[0];
        FitsPrefix(groups[0], 1, maxwidth);
        assert groups[0][..1] == [] + [words[0]];
      }
      WidthSnoc([], words[0]);
    }
  }

  /** `wrap(str, maxwidth)`: the word groups built as the script's `reduce`
      builds them (open a new line when the word would not fit, then put the
      word on the last line), each joined by single spaces. */
  method WrapGroups(words: seq<string>, maxwidth: int) returns (groups: seq<seq<string>>)
    ensures groups == Groups(words, maxwidth)
    ensures WellGrouped(words, groups, maxwidth)
  {
    groups := [[]];
    var i := 0;
    while i < |words|
      invariant i <= |words|
      invariant groups == Groups(words[..i], maxwidth)
    {
      var s := words[i];
      ghost var next := Step(groups, s, maxwidth);
      if Width(groups[|groups| - 1] + [s]) > maxwidth {
        ghost var prev := groups;
        groups := groups + [[]];
        assert groups[..|groups| - 1] == prev && groups[|groups| - 1] + [s] == [s];
      }
      groups := groups[..|groups| - 1] + [groups[|groups| - 1] + [s]];
      assert groups == next;
      assert words[..i + 1][..i] == words[..i];
      i := i + 1;
    }
    assert words[..i] == words;
    GroupsWellGrouped(words, maxwidth);
  }

  /** `wrap(str, maxwidth)`: the lines are greedy (as `WellGrouped` says,
      and so exactly the `Groups` of the words), and each is its words
      joined by single spaces. */
  method Wrap(str: string, maxwidth: int := DefaultMaxWidth) returns (lines: seq<string>)
    ensures |lines| >= 1
    ensures WellGrouped(Words(str), LineWords(lines), maxwidth)
    ensures forall i :: 0 <= i < |lines| ==> lines[i] == Join(Words(lines[i]), " ")
    ensures forall i :: 0 <= i < |lines| ==>
              |lines[i]| <= maxwidth || |Words(lines[i])| == 1 || (i == 0 && lines[i] == [])
  {
    var groups := WrapGroups(Words(str), maxwidth);
    ValidGroups(groups);
    lines := [];
    var i := 0;
    while i < |groups|
      invariant i <= |groups|
      invariant |lines| == i
      invariant forall j :: 0 <= j < i ==> lines[j] == Join(groups[j], " ") && Words(lines[j]) == groups[j]
    {
      WordsOfJoin(groups[i]);
      lines := lines + [Join(groups[i], " ")];
      i := i + 1;
    }
    assert LineWords(lines) == groups;
    forall i | 1 <= i < |lines|
      ensures |lines[i]| <= maxwidth || |Words(lines[i])| == 1
    {
      assert NextLine(groups[i - 1], groups[i], maxwidth);
    }
  }
}
