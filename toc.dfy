/** The table-of-contents builder (`buildTOC`): a flat list of headings
    becomes nested `<ul>` lists driven by a depth counter. The output is
    described as the sequence of pieces the builder writes (`Tok`), rendered
    to text by `Render`; `BuildToc` is the imperative builder. */
module Toc {
  import opened Augment

  /** One piece of output. */
  datatype Tok =
    | UlOpen(d: nat)                           // indent, "<ul>\n"
    | UlClose(d: nat)                          // indent, "</ul>\n"
    | LiClose(d: nat)                          // indent, "</li>\n"
    | Item(d: nat, id: string, text: string)   // indent, "<li><a href=\"#id\">text</a>"
    | ItemEnd(open: bool)                      // "\n" (item left open) or "</li>\n"
    | LiWrap(d: nat)                           // indent, "<li>\n" (corrected builder only)
    | Final                                    // "</ul>"

  /** `strings.Repeat("  ", d)` */
  function Indent(d: nat): (s: string)
    ensures |s| == 2 * d
  {
    if d == 0 then "" else "  " + Indent(d - 1)
  }

  function RenderTok(t: Tok): string {
    match t
    case UlOpen(d) => Indent(d) + "<ul>\n"
    case UlClose(d) => Indent(d) + "</ul>\n"
    case LiClose(d) => Indent(d) + "</li>\n"
    case Item(d, id, text) => Indent(d) + "<li><a href=\"#" + id + "\">" + text + "</a>"
    case ItemEnd(open) => if open then "\n" else "</li>\n"
    case LiWrap(d) => Indent(d) + "<li>\n"
    case Final => "</ul>"
  }

  function Render(ts: seq<Tok>): string {
    if ts == [] then "" else RenderTok(ts[0]) + Render(ts[1..])
  }

  lemma {:induction false} RenderConcat(a: seq<Tok>, b: seq<Tok>)
    ensures Render(a + b) == Render(a) + Render(b)
  {
    if a == [] {
      assert a + b == b;
    } else {
      assert (a + b)[1..] == a[1..] + b;
      RenderConcat(a[1..], b);
    }
  }

  /** The smallest level, as the first loop of `buildTOC` finds it. */
  function MinLevel(hs: seq<Heading>): (m: int)
    requires hs != []
    ensures forall j :: 0 <= j < |hs| ==> m <= hs[j].level
    ensures exists j :: 0 <= j < |hs| && m == hs[j].level
  {
    if |hs| == 1 then hs[0].level
    else
      var m := MinLevel(hs[..|hs| - 1]);
      var l := hs[|hs| - 1].level;
      if l < m then l else m
  }

  predicate LevelsFrom(hs: seq<Heading>, min: int) {
    forall j :: 0 <= j < |hs| ==> min <= hs[j].level
  }

  /** The normalised level `h.Level - minLevel + 1`. */
  function Norm(h: Heading, min: int): int {
    h.level - min + 1
  }

  /** Opening loop: from depth `from` up to `to`. */
  function Opens(from: nat, to: int): seq<Tok>
    decreases to - from
  {
    if from >= to then [] else [UlOpen(from)] + Opens(from + 1, to)
  }

  /** Closing loop: from depth `from` down to `to`, each step closing a
      list and then the item around it. */
  function Closes(from: nat, to: nat): seq<Tok>
    requires to >= 1
    decreases from
  {
    if from <= to then [] else [UlClose(from - 1), LiClose(from - 2)] + Closes(from - 1, to)
  }

  /** Whether the item for heading `i` is left open: the next heading is
      deeper than this one's normalised level. */
  predicate HasChildren(hs: seq<Heading>, min: int, i: nat)
    requires i < |hs|
  {
    i + 1 < |hs| && Norm(hs[i + 1], min) > Norm(hs[i], min)
  }

  /** What the main loop writes before the item of a heading at normalised
      `level` when the current depth is `depth`: the first heading opens the
      outer list, a deeper one opens lists, a shallower one closes them. */
  function Pre(first: bool, level: int, depth: nat): seq<Tok>
    requires level >= 1
  {
    if first then [UlOpen(0)]
    else if level > depth then Opens(depth, level)
    else if level < depth then Closes(depth, level)
    else []
  }

  /** The depth at which that item is written. */
  function ItemDepth(first: bool, level: int): (d: nat)
    requires level >= 1
    ensures d >= 1
  {
    if first then 1 else level
  }

  /** What the main loop writes from heading `i` on at depth `depth`,
      followed by the final closing loop and the last `</ul>`. */
  function Steps(hs: seq<Heading>, min: int, i: nat, depth: nat): seq<Tok>
    requires i <= |hs| && LevelsFrom(hs, min)
    requires i > 0 ==> depth >= 1
    decreases |hs| - i
  {
    if i == |hs| then Closes(depth, 1) + [Final]
    else
      var level := Norm(hs[i], min);
      var d := ItemDepth(i == 0, level);
      Pre(i == 0, level, depth) + [Item(d, hs[i].id, hs[i].text), ItemEnd(HasChildren(hs, min, i))]
        + Steps(hs, min, i + 1, d)
  }

  /** Everything `buildTOC` writes. */
  function TocTokens(hs: seq<Heading>): seq<Tok> {
    if hs == [] then [] else Steps(hs, MinLevel(hs), 0, 0)
  }

  lemma RenderCons(t: Tok, ts: seq<Tok>)
    ensures Render([t] + ts) == RenderTok(t) + Render(ts)
  {
    assert ([t] + ts)[1..] == ts;
  }

  /** The first loop of `buildTOC`. */
  method FindMinLevel(hs: seq<Heading>) returns (m: int)
    requires hs != []
    ensures m == MinLevel(hs)
  {
    m := hs[0].level;
    for j := 1 to |hs|
      invariant m == MinLevel(hs[..j])
    {
      assert hs[..j + 1][..j] == hs[..j];
      if hs[j].level < m {
        m := hs[j].level;
      }
    }
    assert hs[..|hs|] == hs;
  }

  lemma Assoc(a: string, b: string, c: string, d: string)
    ensures a + b + c + d == a + (b + (c + d))
  {
  }

  /** The opening loop of `buildTOC`. */
  method WriteOpens(sb: string, depth: nat, level: int) returns (sb': string, depth': nat)
    requires depth <= level
    ensures depth' == level && sb' == sb + Render(Opens(depth, level))
  {
    sb', depth' := sb, depth;
    while depth' < level
      invariant depth' <= level
      invariant sb' + Render(Opens(depth', level)) == sb + Render(Opens(depth, level))
    {
      RenderCons(UlOpen(depth'), Opens(depth' + 1, level));
      sb' := sb' + (Indent(depth') + "<ul>\n");
      depth' := depth' + 1;
    }
  }

  /** The closing loop splits into its first round and the rest. */
  lemma CloseStep(depth: nat, level: nat)
    requires 1 <= level < depth
    ensures Render(Closes(depth, level)) ==
      RenderTok(UlClose(depth - 1)) + (RenderTok(LiClose(depth - 2)) + Render(Closes(depth - 1, level)))
  {
    var rest := Closes(depth - 1, level);
    assert Closes(depth, level) == [UlClose(depth - 1)] + ([LiClose(depth - 2)] + rest);
    RenderCons(UlClose(depth - 1), [LiClose(depth - 2)] + rest);
    RenderCons(LiClose(depth - 2), rest);
  }

  /** One round of the closing loop: close the list one level up, then the
      item around it, ending one level shallower. */
  method CloseRound(sb: string, depth: nat) returns (sb': string, depth': nat)
    requires depth >= 2
    ensures depth' == depth - 1
    ensures sb' == sb + RenderTok(UlClose(depth - 1)) + RenderTok(LiClose(depth - 2))
  {
    depth' := depth - 1;
    sb' := sb + (Indent(depth') + "</ul>\n");
    depth' := depth' - 1;
    sb' := sb' + (Indent(depth') + "</li>\n");
    depth' := depth' + 1;
  }

  /** The closing loops of `buildTOC`. */
  method WriteCloses(sb: string, depth: nat, level: nat) returns (sb': string, depth': nat)
    requires 1 <= level <= depth
    ensures depth' == level && sb' == sb + Render(Closes(depth, level))
  {
    sb', depth' := sb, depth;
    while depth' > level
      invariant level <= depth'
      invariant sb' + Render(Closes(depth', level)) == sb + Render(Closes(depth, level))
    {
      CloseStep(depth', level);
      ghost var before := sb';
      ghost var t1 := RenderTok(UlClose(depth' - 1));
      ghost var t2 := RenderTok(LiClose(depth' - 2));
      ghost var more := Render(Closes(depth' - 1, level));
      sb', depth' := CloseRound(sb', depth');
      Assoc(before, t1, t2, more);
    }
  }

  /** The item write of the main loop: the link, then a newline when the
      item stays open for a nested list, `</li>` otherwise. */
  method WriteItem(sb: string, depth: nat, h: Heading, hasChildren: bool) returns (sb': string)
    ensures sb' == sb + RenderTok(Item(depth, h.id, h.text)) + RenderTok(ItemEnd(hasChildren))
  {
    sb' := sb + (Indent(depth) + "<li><a href=\"#" + h.id + "\">" + h.text + "</a>");
    if hasChildren {
      sb' := sb' + "\n";
    } else {
      sb' := sb' + "</li>\n";
    }
  }

  /** The list openings or closings before an item. */
  method WritePre(sb: string, first: bool, level: int, depth: nat) returns (sb': string, depth': nat)
    requires level >= 1
    requires !first ==> depth >= 1
    requires first ==> depth == 0
    ensures depth' == ItemDepth(first, level) && sb' == sb + Render(Pre(first, level, depth))
  {
    sb', depth' := sb, depth;
    if first {
      RenderCons(UlOpen(0), []);
      sb' := sb' + "<ul>\n";
      depth' := depth' + 1;
    } else if level > depth {
      sb', depth' := WriteOpens(sb', depth', level);
    } else if level < depth {
      sb', depth' := WriteCloses(sb', depth', level);
    }
  }

  lemma RenderItem(pre: seq<Tok>, item: Tok, end: Tok, tail: seq<Tok>)
    ensures Render(pre + [item, end] + tail) == Render(pre) + (RenderTok(item) + RenderTok(end)) + Render(tail)
  {
    var two := [item, end];
    RenderConcat(pre + two, tail);
    RenderConcat(pre, two);
    RenderTwo(item, end);
  }

  lemma RenderTwo(item: Tok, end: Tok)
    ensures Render([item, end]) == RenderTok(item) + RenderTok(end)
  {
    RenderCons(item, [end]);
    RenderCons(end, []);
    assert [item, end] == [item] + [end];
  }

  lemma Glue(a: string, b: string, c: string, d: string, e: string)
    ensures a + b + c + d + e == a + (b + (c + d) + e)
  {
  }

  /** One round of the main loop of `buildTOC`, for heading `i`. */
  method WriteHeading(hs: seq<Heading>, min: int, i: nat, sb: string, depth: nat) returns (sb': string, depth': nat)
    requires i < |hs| && LevelsFrom(hs, min)
    requires i > 0 ==> depth >= 1
    requires i == 0 ==> depth == 0
    ensures depth' == if i == 0 then 1 else Norm(hs[i], min)
    ensures sb' + Render(Steps(hs, min, i + 1, depth')) == sb + Render(Steps(hs, min, i, depth))
  {
    var h := hs[i];
    var level := h.level - min + 1;
    var hasChildren := i + 1 < |hs| && hs[i + 1].level - min + 1 > level;
    assert level == Norm(hs[i], min) && hasChildren == HasChildren(hs, min, i);
    sb', depth' := WritePre(sb, i == 0, level, depth);
    sb' := WriteItem(sb', depth', h, hasChildren);
    ghost var pre := Pre(i == 0, level, depth);
    ghost var it := Item(depth', h.id, h.text);
    ghost var end := ItemEnd(hasChildren);
    ghost var tail := Steps(hs, min, i + 1, depth');
    assert Steps(hs, min, i, depth) == pre + [it, end] + tail;
    RenderItem(pre, it, end, tail);
    Glue(sb, Render(pre), RenderTok(it), RenderTok(end), Render(tail));
  }

  /** The main loop of `buildTOC`: every heading in order. */
  method WriteHeadings(hs: seq<Heading>, min: int) returns (sb: string, depth: nat)
    requires hs != [] && LevelsFrom(hs, min)
    ensures depth >= 1 && sb + Render(Closes(depth, 1) + [Final]) == Render(Steps(hs, min, 0, 0))
  {
    sb := "";
    depth := 0;
    var i := 0;
    while i < |hs|
      invariant 0 <= i <= |hs|
      invariant i > 0 ==> depth >= 1
      invariant i == 0 ==> depth == 0
      invariant sb + Render(Steps(hs, min, i, depth)) == Render(Steps(hs, min, 0, 0))
    {
      sb, depth := WriteHeading(hs, min, i, sb, depth);
      i := i + 1;
    }
  }

  /** The final closing loop of `buildTOC` and the last `</ul>`. */
  method WriteEnd(sb: string, depth: nat) returns (sb': string)
    requires depth >= 1
    ensures sb' == sb + Render(Closes(depth, 1) + [Final])
  {
    RenderConcat(Closes(depth, 1), [Final]);
    RenderCons(Final, []);
    ghost var closes := Render(Closes(depth, 1));
    var d;
    sb', d := WriteCloses(sb, depth, 1);
    sb' := sb' + "</ul>";
    assert sb' == sb + closes + RenderTok(Final);
  }

  /** `buildTOC` */
  method BuildToc(hs: seq<Heading>) returns (r: string)
    ensures r == Render(TocTokens(hs))
  {
    if |hs| == 0 {
      return "";
    }
    var minLevel := FindMinLevel(hs);
    var sb, depth := WriteHeadings(hs, minLevel);
    r := WriteEnd(sb, depth);
  }

  // The corrected builder: every nested list sits inside a list item.

  /** Opening loop of the corrected builder: every list after the first one
      of the run is wrapped in a fresh item. */
  function WrappedOpens(from: nat, to: int, wrap: bool): seq<Tok>
    decreases to - from
  {
    if from >= to then []
    else (if wrap then [LiWrap(from)] else []) + [UlOpen(from)] + WrappedOpens(from + 1, to, true)
  }

  /** What the corrected builder writes before an item at `level`. */
  function FixedPre(level: nat, depth: nat): seq<Tok>
    requires level >= 1
  {
    if level > depth then WrappedOpens(depth, level, false)
    else if level < depth then Closes(depth, level)
    else []
  }

  /** What the corrected builder writes from heading `i` on at depth `depth`;
      each item is written at its own normalised level. */
  function FixedSteps(hs: seq<Heading>, min: int, i: nat, depth: nat): seq<Tok>
    requires i <= |hs| && LevelsFrom(hs, min)
    decreases |hs| - i
  {
    if i == |hs| then Closes(depth, 1) + [Final]
    else
      var level: nat := Norm(hs[i], min);
      FixedPre(level, depth) + [Item(level, hs[i].id, hs[i].text), ItemEnd(HasChildren(hs, min, i))]
        + FixedSteps(hs, min, i + 1, level)
  }

  /** The pieces the corrected builder writes from heading `i` on: the lists before its
      item, the item and its end, then the rest. */
  lemma FixedStepsSplit(hs: seq<Heading>, min: int, i: nat, depth: nat)
    requires i < |hs| && LevelsFrom(hs, min)
    ensures var level: nat := Norm(hs[i], min);
      FixedSteps(hs, min, i, depth) ==
        FixedPre(level, depth) + ([Item(level, hs[i].id, hs[i].text), ItemEnd(HasChildren(hs, min, i))]
          + FixedSteps(hs, min, i + 1, level))
  {
  }

  /** The pieces the builder as written writes from heading `i` on: the
      lists before its item, the item and its end, then the rest. */
  lemma StepsSplit(hs: seq<Heading>, min: int, i: nat, depth: nat)
    requires i < |hs| && LevelsFrom(hs, min)
    requires i > 0 ==> depth >= 1
    ensures var level := Norm(hs[i], min);
      var d := ItemDepth(i == 0, level);
      Steps(hs, min, i, depth) ==
        Pre(i == 0, level, depth) + ([Item(d, hs[i].id, hs[i].text), ItemEnd(HasChildren(hs, min, i))]
          + Steps(hs, min, i + 1, d))
  {
  }

  /** Everything the corrected builder writes. */
  function FixedTokens(hs: seq<Heading>): seq<Tok> {
    if hs == [] then [] else FixedSteps(hs, MinLevel(hs), 0, 0)
  }

  /** One round of the opening loop of the corrected builder. */
  method OpenRound(sb: string, depth: nat, level: int, wrap: bool) returns (sb': string)
    requires depth < level
    ensures sb' + Render(WrappedOpens(depth + 1, level, true)) == sb + Render(WrappedOpens(depth, level, wrap))
  {
    ghost var rest := WrappedOpens(depth + 1, level, true);
    ghost var ul := RenderTok(UlOpen(depth));
    RenderCons(UlOpen(depth), rest);
    if wrap {
      ghost var li := RenderTok(LiWrap(depth));
      assert WrappedOpens(depth, level, wrap) == [LiWrap(depth)] + ([UlOpen(depth)] + rest);
      RenderCons(LiWrap(depth), [UlOpen(depth)] + rest);
      sb' := sb + (Indent(depth) + "<li>\n");
      sb' := sb' + (Indent(depth) + "<ul>\n");
      Assoc(sb, li, ul, Render(rest));
    } else {
      assert WrappedOpens(depth, level, wrap) == [UlOpen(depth)] + rest;
      sb' := sb + (Indent(depth) + "<ul>\n");
    }
  }

  /** The opening loop of the corrected builder. */
  method WriteWrappedOpens(sb: string, depth: nat, level: int) returns (sb': string, depth': nat)
    requires depth < level
    ensures depth' == level && sb' == sb + Render(WrappedOpens(depth, level, false))
  {
    sb', depth' := sb, depth;
    var wrap := false;
    while depth' < level
      invariant depth' <= level
      invariant wrap == (depth' > depth)
      invariant sb' + Render(WrappedOpens(depth', level, wrap)) == sb + Render(WrappedOpens(depth, level, false))
    {
      sb' := OpenRound(sb', depth', level, wrap);
      depth' := depth' + 1;
      wrap := true;
    }
  }

  /** The list openings or closings before an item of the corrected builder. */
  method WriteFixedPre(sb: string, level: int, depth: nat) returns (sb': string, depth': nat)
    requires level >= 1
    ensures depth' == level && sb' == sb + Render(FixedPre(level, depth))
  {
    sb', depth' := sb, depth;
    if level > depth {
      sb', depth' := WriteWrappedOpens(sb', depth', level);
    } else if level < depth {
      sb', depth' := WriteCloses(sb', depth', level);
    }
  }

  /** One round of the main loop of the corrected builder. */
  method WriteFixedHeading(hs: seq<Heading>, min: int, i: nat, sb: string, depth: nat) returns (sb': string, depth': nat)
    requires i < |hs| && LevelsFrom(hs, min)
    ensures depth' >= 1
    ensures sb' + Render(FixedSteps(hs, min, i + 1, depth')) == sb + Render(FixedSteps(hs, min, i, depth))
  {
    var h := hs[i];
    var level := h.level - min + 1;
    var hasChildren := i + 1 < |hs| && hs[i + 1].level - min + 1 > level;
    assert level == Norm(hs[i], min) && hasChildren == HasChildren(hs, min, i);
    ghost var pre := FixedPre(level, depth);
    sb', depth' := WriteFixedPre(sb, level, depth);
    sb' := WriteItem(sb', depth', h, hasChildren);
    ghost var it := Item(depth', h.id, h.text);
    ghost var end := ItemEnd(hasChildren);
    ghost var tail := FixedSteps(hs, min, i + 1, depth');
    assert FixedSteps(hs, min, i, depth) == pre + [it, end] + tail;
    RenderItem(pre, it, end, tail);
    Glue(sb, Render(pre), RenderTok(it), RenderTok(end), Render(tail));
  }

  /** The corrected builder: `buildTOC` with an item opened around every
      list that a skipped level would otherwise leave bare. */
  method BuildFixedToc(hs: seq<Heading>) returns (r: string)
    ensures r == Render(FixedTokens(hs))
  {
    if |hs| == 0 {
      return "";
    }
    var minLevel := FindMinLevel(hs);
    var sb, depth := WriteFixedHeadings(hs, minLevel);
    r := WriteEnd(sb, depth);
  }

  /** The main loop of the corrected builder. */
  method WriteFixedHeadings(hs: seq<Heading>, min: int) returns (sb: string, depth: nat)
    requires hs != [] && LevelsFrom(hs, min)
    ensures depth >= 1 && sb + Render(Closes(depth, 1) + [Final]) == Render(FixedSteps(hs, min, 0, 0))
  {
    sb := "";
    depth := 0;
    var i := 0;
    while i < |hs|
      invariant 0 <= i <= |hs|
      invariant i > 0 ==> depth >= 1
      invariant sb + Render(FixedSteps(hs, min, i, depth)) == Render(FixedSteps(hs, min, 0, 0))
    {
      sb, depth := WriteFixedHeading(hs, min, i, sb, depth);
      i := i + 1;
    }
  }
}
