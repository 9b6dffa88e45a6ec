/** How the pieces written by the table-of-contents builders nest as HTML:
    `<ul>` and `<li>` must close in the reverse order they open. The builder
    as written breaks this when a heading skips a level; the corrected
    builder keeps it for every heading list. Also: which items the table
    lists, and at which depth. */
module TocNesting {
  import opened Wrappers
  import opened Augment
  import opened Toc
  import opened TocItems

  datatype Tag = Ul | Li

  /** The elements open at some point, innermost on top. */
  datatype Open = Empty | Push(under: Open, top: Tag)

  /** Closing `tag` when it is the innermost open element. */
  function Pop(st: Open, tag: Tag): (r: Option<Open>)
    ensures r.Some? <==> st.Push? && st.top == tag
    ensures r.Some? ==> st == Push(r.value, tag)
  {
    if st.Push? && st.top == tag then Some(st.under) else None
  }

  /** The effect of one piece on the stack of open elements (innermost last);
      None when it closes an element that is not the innermost open one. */
  function Apply(t: Tok, st: Open): Option<Open> {
    match t
    case UlOpen(_) => Some(Push(st, Ul))
    case LiWrap(_) => Some(Push(st, Li))
    case Item(_, _, _) => Some(Push(st, Li))
    case ItemEnd(open) => if open then Some(st) else Pop(st, Li)
    case UlClose(_) => Pop(st, Ul)
    case LiClose(_) => Pop(st, Li)
    case Final => Pop(st, Ul)
  }

  /** Applies the pieces from position `k` on. */
  function RunFrom(ts: seq<Tok>, k: nat, st: Open): Option<Open>
    requires k <= |ts|
    decreases |ts| - k
  {
    if k == |ts| then Some(st)
    else
      match Apply(ts[k], st)
      case None => None
      case Some(st') => RunFrom(ts, k + 1, st')
  }

  function Run(ts: seq<Tok>, st: Open): Option<Open> {
    RunFrom(ts, 0, st)
  }

  /** Every element opened is closed, innermost first. */
  predicate WellNested(ts: seq<Tok>) {
    Run(ts, Empty) == Some(Empty)
  }

  lemma {:induction false} RunFromConcat(a: seq<Tok>, b: seq<Tok>, k: nat, st: Open)
    requires k <= |a|
    ensures RunFrom(a + b, k, st) == match RunFrom(a, k, st) case None => None case Some(s) => Run(b, s)
    decreases |a| - k
  {
    if k == |a| {
      RunFromShift(a, b, 0, st);
    } else {
      assert (a + b)[k] == a[k];
      match Apply(a[k], st)
      case None =>
      case Some(s) => RunFromConcat(a, b, k + 1, s);
    }
  }

  /** Running the tail of a concatenation is running the second part. */
  lemma {:induction false} RunFromShift(a: seq<Tok>, b: seq<Tok>, k: nat, st: Open)
    requires k <= |b|
    ensures RunFrom(a + b, |a| + k, st) == RunFrom(b, k, st)
    decreases |b| - k
  {
    if k < |b| {
      assert (a + b)[|a| + k] == b[k];
      match Apply(b[k], st)
      case None =>
      case Some(s) => RunFromShift(a, b, k + 1, s);
    }
  }

  lemma RunOne(t: Tok, st: Open)
    ensures Run([t], st) == Apply(t, st)
  {
    match Apply(t, st)
    case None =>
    case Some(s) => assert RunFrom([t], 1, s) == Some(s);
  }

  lemma RunConcat(a: seq<Tok>, b: seq<Tok>, st: Open)
    ensures Run(a + b, st) == match Run(a, st) case None => None case Some(s) => Run(b, s)
  {
    RunFromConcat(a, b, 0, st);
  }

  /** The open elements at depth `d` between items: the outer list, then an
      item and its nested list for every further level. */
  function Stack(d: nat): Open {
    if d == 0 then Empty else if d == 1 then Push(Empty, Ul) else Push(Push(Stack(d - 1), Li), Ul)
  }

  /** The same with the last item at depth `d` still open. */
  function Pending(d: nat): Open {
    if d == 0 then Empty else Push(Stack(d), Li)
  }

  /** The corrected opening loop goes from depth `d` (with the item at that
      depth open, unless `wrap`) to depth `l`. */
  lemma {:induction false} RunWrappedOpens(d: nat, l: nat, wrap: bool)
    requires d < l && (wrap ==> d >= 1)
    ensures Run(WrappedOpens(d, l, wrap), if wrap then Stack(d) else Pending(d)) == Some(Stack(l))
    decreases l - d
  {
    var start := if wrap then Stack(d) else Pending(d);
    var rest := WrappedOpens(d + 1, l, true);
    if wrap {
      assert WrappedOpens(d, l, wrap) == [LiWrap(d)] + ([UlOpen(d)] + rest);
      RunConcat([LiWrap(d)], [UlOpen(d)] + rest, start);
      RunOne(LiWrap(d), start);
      RunConcat([UlOpen(d)], rest, Push(start, Li));
      RunOne(UlOpen(d), Push(start, Li));
    } else {
      assert WrappedOpens(d, l, wrap) == [UlOpen(d)] + rest;
      RunConcat([UlOpen(d)], rest, start);
      RunOne(UlOpen(d), start);
    }
    if d + 1 < l {
      RunWrappedOpens(d + 1, l, true);
    }
  }

  /** Each round of the closing loop ends one list and the item around it. */
  lemma {:induction false} RunCloses(from: nat, to: nat)
    requires 1 <= to <= from
    ensures Run(Closes(from, to), Stack(from)) == Some(Stack(to))
    decreases from
  {
    if from > to {
      var rest := Closes(from - 1, to);
      assert Closes(from, to) == [UlClose(from - 1)] + ([LiClose(from - 2)] + rest);
      RunConcat([UlClose(from - 1)], [LiClose(from - 2)] + rest, Stack(from));
      RunOne(UlClose(from - 1), Stack(from));
      RunConcat([LiClose(from - 2)], rest, Push(Stack(from - 1), Li));
      RunOne(LiClose(from - 2), Push(Stack(from - 1), Li));
      RunCloses(from - 1, to);
    }
  }

  /** An item and its end: open afterwards exactly when it has children. */
  lemma RunItem(d: nat, id: string, text: string, open: bool)
    ensures Run([Item(d, id, text), ItemEnd(open)], Stack(d)) ==
      Some(if open then Push(Stack(d), Li) else Stack(d))
  {
    assert [Item(d, id, text), ItemEnd(open)] == [Item(d, id, text)] + [ItemEnd(open)];
    RunConcat([Item(d, id, text)], [ItemEnd(open)], Stack(d));
    RunOne(Item(d, id, text), Stack(d));
    RunOne(ItemEnd(open), Push(Stack(d), Li));
  }

  /** The end of the corrected table closes everything. */
  lemma RunEnd(depth: nat)
    requires depth >= 1
    ensures Run(Closes(depth, 1) + [Final], Stack(depth)) == Some(Empty)
  {
    RunCloses(depth, 1);
    RunConcat(Closes(depth, 1), [Final], Stack(depth));
    RunOne(Final, Stack(1));
  }

  /** The open elements before heading `i` of the corrected builder. */
  function Before(hs: seq<Heading>, min: int, i: nat, depth: nat): Open
    requires i <= |hs|
  {
    if i < |hs| && Norm(hs[i], min) > depth then Pending(depth) else Stack(depth)
  }

  /** The lists opened or closed before an item leave the item's own
      depth open. */
  lemma RunFixedPre(level: nat, depth: nat, st: Open)
    requires level >= 1
    requires st == if level > depth then Pending(depth) else Stack(depth)
    ensures Run(FixedPre(level, depth), st) == Some(Stack(level))
  {
    if level > depth {
      RunWrappedOpens(depth, level, false);
    } else if level < depth {
      RunCloses(depth, level);
    }
  }

  /** Three runs one after the other. */
  lemma RunChain(pre: seq<Tok>, item: seq<Tok>, tail: seq<Tok>, st: Open, mid: Open, next: Open)
    requires Run(pre, st) == Some(mid) && Run(item, mid) == Some(next) && Run(tail, next) == Some(Empty)
    ensures Run(pre + (item + tail), st) == Some(Empty)
  {
    RunConcat(pre, item + tail, st);
    RunConcat(item, tail, mid);
  }

  lemma {:induction false} FixedNestedFrom(hs: seq<Heading>, min: int, i: nat, depth: nat)
    requires i <= |hs| && LevelsFrom(hs, min)
    requires i == |hs| ==> depth >= 1
    ensures Run(FixedSteps(hs, min, i, depth), Before(hs, min, i, depth)) == Some(Empty)
    decreases |hs| - i
  {
    if i == |hs| {
      RunEnd(depth);
    } else {
      var level: nat := Norm(hs[i], min);
      var open := HasChildren(hs, min, i);
      var item := [Item(level, hs[i].id, hs[i].text), ItemEnd(open)];
      var next := if open then Pending(level) else Stack(level);
      FixedStepsSplit(hs, min, i, depth);
      RunFixedPre(level, depth, Before(hs, min, i, depth));
      RunItem(level, hs[i].id, hs[i].text, open);
      assert next == Before(hs, min, i + 1, level);
      FixedNestedFrom(hs, min, i + 1, level);
      RunChain(FixedPre(level, depth), item, FixedSteps(hs, min, i + 1, level), Before(hs, min, i, depth), Stack(level), next);
    }
  }

  /** The corrected table is well nested for every heading list. */
  lemma FixedWellNested(hs: seq<Heading>)
    ensures WellNested(FixedTokens(hs))
  {
    if hs != [] {
      FixedNestedFrom(hs, MinLevel(hs), 0, 0);
    }
  }

  /** What the builder as written produces for levels 1, 3. */
  lemma SkippedLevelTokens()
    ensures TocTokens([Heading(1, "a", "A"), Heading(3, "b", "B")]) ==
      [UlOpen(0), Item(1, "a", "A"), ItemEnd(true), UlOpen(1), UlOpen(2), Item(3, "b", "B"),
       ItemEnd(false), UlClose(2), LiClose(1), UlClose(1), LiClose(0), Final]
  {
    assert MinLevel([Heading(1, "a", "A"), Heading(3, "b", "B")]) == 1;
  }

  /** The builder as written, on a level-1 heading followed by a level-3
      heading: after the second item's list is closed, the innermost open
      element is the list opened for the skipped level, but the builder
      closes an item there. */
  lemma SkippedLevelMisnested()
    ensures !WellNested(TocTokens([Heading(1, "a", "A"), Heading(3, "b", "B")]))
  {
    SkippedLevelTokens();
    SkippedLevelRun();
  }

  lemma SkippedLevelRun()
    ensures !WellNested([UlOpen(0), Item(1, "a", "A"), ItemEnd(true), UlOpen(1), UlOpen(2), Item(3, "b", "B"),
      ItemEnd(false), UlClose(2), LiClose(1), UlClose(1), LiClose(0), Final])
  {
    var ts := [UlOpen(0), Item(1, "a", "A"), ItemEnd(true), UlOpen(1), UlOpen(2), Item(3, "b", "B"),
      ItemEnd(false), UlClose(2), LiClose(1), UlClose(1), LiClose(0), Final];
    var s1 := Push(Empty, Ul);
    var s2 := Push(s1, Li);
    var s3 := Push(s2, Ul);
    var s4 := Push(s3, Ul);
    assert RunFrom(ts, 8, s3) == None;
    assert RunFrom(ts, 7, s4) == RunFrom(ts, 8, s3);
    assert RunFrom(ts, 6, Push(s4, Li)) == RunFrom(ts, 7, s4);
    assert RunFrom(ts, 5, s4) == RunFrom(ts, 6, Push(s4, Li));
    assert RunFrom(ts, 4, s3) == RunFrom(ts, 5, s4);
    assert RunFrom(ts, 3, s2) == RunFrom(ts, 4, s3);
    assert RunFrom(ts, 2, s2) == RunFrom(ts, 3, s2);
    assert RunFrom(ts, 1, s1) == RunFrom(ts, 2, s2);
    assert RunFrom(ts, 0, Empty) == RunFrom(ts, 1, s1);
  }

  /** What the builder as written produces for levels 2, 2, 1. */
  lemma DeepFirstTokens()
    ensures TocTokens([Heading(2, "a", "A"), Heading(2, "b", "B"), Heading(1, "c", "C")]) ==
      [UlOpen(0), Item(1, "a", "A"), ItemEnd(false), UlOpen(1), Item(2, "b", "B"), ItemEnd(false),
       UlClose(1), LiClose(0), Item(1, "c", "C"), ItemEnd(false), Final]
  {
    assert MinLevel([Heading(2, "a", "A"), Heading(2, "b", "B"), Heading(1, "c", "C")]) == 1;
  }

  /** The builder as written, when the first heading is deeper than a later
      one (levels 2, 2, 1): the first item is closed at once, so the second
      heading's list sits directly inside the outer list and the item closed
      after it does not exist. */
  lemma DeepFirstMisnested()
    ensures !WellNested(TocTokens([Heading(2, "a", "A"), Heading(2, "b", "B"), Heading(1, "c", "C")]))
  {
    DeepFirstTokens();
    DeepFirstRun();
  }

  lemma DeepFirstRun()
    ensures !WellNested([UlOpen(0), Item(1, "a", "A"), ItemEnd(false), UlOpen(1), Item(2, "b", "B"), ItemEnd(false),
      UlClose(1), LiClose(0), Item(1, "c", "C"), ItemEnd(false), Final])
  {
    var ts := [UlOpen(0), Item(1, "a", "A"), ItemEnd(false), UlOpen(1), Item(2, "b", "B"), ItemEnd(false),
      UlClose(1), LiClose(0), Item(1, "c", "C"), ItemEnd(false), Final];
    var s1 := Push(Empty, Ul);
    var s2 := Push(s1, Ul);
    assert RunFrom(ts, 7, s1) == None;
    assert RunFrom(ts, 6, s2) == RunFrom(ts, 7, s1);
    assert RunFrom(ts, 5, Push(s2, Li)) == RunFrom(ts, 6, s2);
    assert RunFrom(ts, 4, s2) == RunFrom(ts, 5, Push(s2, Li));
    assert RunFrom(ts, 3, s1) == RunFrom(ts, 4, s2);
    assert RunFrom(ts, 2, Push(s1, Li)) == RunFrom(ts, 3, s1);
    assert RunFrom(ts, 1, s1) == RunFrom(ts, 2, Push(s1, Li));
    assert RunFrom(ts, 0, Empty) == RunFrom(ts, 1, s1);
  }

  /** No heading is more than one level deeper than the one before it. */
  predicate NoSkip(hs: seq<Heading>) {
    forall j :: 0 < j < |hs| ==> hs[j].level <= hs[j - 1].level + 1
  }

  /** Under `NoSkip`, from heading `i` on the two builders write the same
      pieces. */
  lemma {:induction false} StepsAgree(hs: seq<Heading>, min: int, i: nat, depth: nat)
    requires i <= |hs| && LevelsFrom(hs, min) && NoSkip(hs)
    requires i == 0 ==> depth == 0 && (hs != [] ==> hs[0].level == min)
    requires i > 0 ==> depth >= 1 && depth == Norm(hs[i - 1], min)
    ensures Steps(hs, min, i, depth) == FixedSteps(hs, min, i, depth)
    decreases |hs| - i
  {
    if i < |hs| {
      var level := Norm(hs[i], min);
      assert i > 0 ==> level <= depth + 1;
      assert ItemDepth(i == 0, level) == level;
      PreAgree(i == 0, level, depth);
      StepsAgree(hs, min, i + 1, level);
    }
  }

  /** The lists written before an item agree when the item is at most one
      level deeper than the current depth. */
  lemma PreAgree(first: bool, level: int, depth: nat)
    requires level >= 1 && level <= depth + 1
    requires first ==> depth == 0 && level == 1
    ensures Pre(first, level, depth) == FixedPre(level, depth)
  {
    if level > depth {
      assert WrappedOpens(depth + 1, level, true) == [];
      assert Opens(depth + 1, level) == [];
    }
  }

  /** When the first heading is at the smallest level and no level is
      skipped, the builder as written already produces the corrected
      output, so it is well nested. */
  lemma NoSkipAgree(hs: seq<Heading>)
    requires hs != [] ==> hs[0].level == MinLevel(hs)
    requires NoSkip(hs)
    ensures TocTokens(hs) == FixedTokens(hs) && WellNested(TocTokens(hs))
  {
    FixedWellNested(hs);
    if hs != [] {
      StepsAgree(hs, MinLevel(hs), 0, 0);
    }
  }

  /** Levels 2, 3, 3, 2: the list is well nested and lists the four
      headings in order at depths 1, 2, 2, 1, that is one outer list of two
      items whose first holds a nested list of two. */
  lemma NestedExample(hs: seq<Heading>)
    requires |hs| == 4 && hs[0].level == 2 && hs[1].level == 3 && hs[2].level == 3 && hs[3].level == 2
    ensures WellNested(TocTokens(hs))
    ensures Entries(TocTokens(hs)) ==
      [hs[0].(level := 1), hs[1].(level := 2), hs[2].(level := 2), hs[3].(level := 1)]
  {
    ExampleMin(hs);
    NoSkipAgree(hs);
    TocEntries(hs);
    var n := Normalised(hs, 2);
    assert n[1..] == [n[1], n[2], n[3]];
  }

  lemma ExampleMin(hs: seq<Heading>)
    requires |hs| == 4 && hs[0].level == 2 && hs[1].level == 3 && hs[2].level == 3 && hs[3].level == 2
    ensures MinLevel(hs) == 2
  {
    var m := MinLevel(hs);
    assert m <= hs[0].level;
    assert exists j :: 0 <= j < |hs| && m == hs[j].level;
  }
}
