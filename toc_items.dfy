/** Which entries a table of contents lists: one link per heading, in
    heading order, and at which depth; and when the table is empty. */
module TocItems {
  import opened Augment
  import opened Toc

  /** The items among the pieces, in order, each as the heading it links to
      with its depth as level. */
  function Entries(ts: seq<Tok>): seq<Heading> {
    if ts == [] then []
    else (if ts[0].Item? then [Heading(ts[0].d, ts[0].id, ts[0].text)] else []) + Entries(ts[1..])
  }

  lemma {:induction false} EntriesConcat(a: seq<Tok>, b: seq<Tok>)
    ensures Entries(a + b) == Entries(a) + Entries(b)
  {
    if a == [] {
      assert a + b == b;
    } else {
      assert (a + b)[0] == a[0] && (a + b)[1..] == a[1..] + b;
      EntriesConcat(a[1..], b);
    }
  }

  /** Pieces that hold no item. */
  predicate NoItems(ts: seq<Tok>) {
    forall k :: 0 <= k < |ts| ==> !ts[k].Item?
  }

  lemma {:induction false} NoItemsEntries(ts: seq<Tok>)
    requires NoItems(ts)
    ensures Entries(ts) == []
  {
    if ts != [] {
      NoItemsEntries(ts[1..]);
    }
  }

  lemma {:induction false} OpensNoItems(from: nat, to: int)
    ensures NoItems(Opens(from, to))
    decreases if from < to then to - from else 0
  {
    if from < to {
      OpensNoItems(from + 1, to);
    }
  }

  lemma {:induction false} WrappedOpensNoItems(from: nat, to: int, wrap: bool)
    ensures NoItems(WrappedOpens(from, to, wrap))
    decreases if from < to then to - from else 0
  {
    if from < to {
      WrappedOpensNoItems(from + 1, to, true);
    }
  }

  lemma {:induction false} ClosesNoItems(from: nat, to: nat)
    requires to >= 1
    ensures NoItems(Closes(from, to))
    decreases from
  {
    if from > to {
      ClosesNoItems(from - 1, to);
    }
  }

  /** The headings with their normalised levels. */
  function Normalised(hs: seq<Heading>, min: int): (r: seq<Heading>)
    ensures |r| == |hs|
    ensures forall j :: 0 <= j < |hs| ==> r[j] == hs[j].(level := Norm(hs[j], min))
  {
    seq(|hs|, j requires 0 <= j < |hs| => hs[j].(level := Norm(hs[j], min)))
  }

  /** An item between its list openings or closings and the rest. */
  lemma ItemEntries(pre: seq<Tok>, it: Tok, end: Tok, tail: seq<Tok>)
    requires NoItems(pre) && it.Item? && !end.Item?
    ensures Entries(pre + [it, end] + tail) == [Heading(it.d, it.id, it.text)] + Entries(tail)
  {
    NoItemsEntries(pre);
    EntriesConcat(pre + [it, end], tail);
    EntriesConcat(pre, [it, end]);
    assert [it, end][1..] == [end];
    assert Entries([end]) == [] by {
      assert [end][1..] == [];
    }
    assert Entries([it, end]) == [Heading(it.d, it.id, it.text)] + Entries([end]);
  }

  lemma {:induction false} FixedEntriesFrom(hs: seq<Heading>, min: int, i: nat, depth: nat)
    requires i <= |hs| && LevelsFrom(hs, min)
    ensures Entries(FixedSteps(hs, min, i, depth)) == Normalised(hs, min)[i..]
    decreases |hs| - i
  {
    if i == |hs| {
      ClosesNoItems(depth, 1);
      NoItemsEntries(Closes(depth, 1) + [Final]);
    } else {
      var level: nat := Norm(hs[i], min);
      var pre := FixedPre(level, depth);
      if level > depth {
        WrappedOpensNoItems(depth, level, false);
      } else if level < depth {
        ClosesNoItems(depth, level);
      }
      ItemEntries(pre, Item(level, hs[i].id, hs[i].text), ItemEnd(HasChildren(hs, min, i)),
        FixedSteps(hs, min, i + 1, level));
      FixedEntriesFrom(hs, min, i + 1, level);
      assert Normalised(hs, min)[i..] == [Normalised(hs, min)[i]] + Normalised(hs, min)[i + 1..];
    }
  }

  /** The corrected table lists every heading once, in order, each at its
      normalised level. */
  lemma FixedEntries(hs: seq<Heading>)
    ensures hs != [] ==> Entries(FixedTokens(hs)) == Normalised(hs, MinLevel(hs))
    ensures hs == [] ==> FixedTokens(hs) == []
  {
    if hs != [] {
      FixedEntriesFrom(hs, MinLevel(hs), 0, 0);
    }
  }

  lemma {:induction false} EntriesFrom(hs: seq<Heading>, min: int, i: nat, depth: nat)
    requires 0 < i <= |hs| && LevelsFrom(hs, min) && depth >= 1
    ensures Entries(Steps(hs, min, i, depth)) == Normalised(hs, min)[i..]
    decreases |hs| - i
  {
    if i == |hs| {
      ClosesNoItems(depth, 1);
      NoItemsEntries(Closes(depth, 1) + [Final]);
    } else {
      var level := Norm(hs[i], min);
      if level > depth {
        OpensNoItems(depth, level);
      } else if level < depth {
        ClosesNoItems(depth, level);
      }
      ItemEntries(Pre(false, level, depth), Item(level, hs[i].id, hs[i].text), ItemEnd(HasChildren(hs, min, i)),
        Steps(hs, min, i + 1, level));
      EntriesFrom(hs, min, i + 1, level);
      assert Normalised(hs, min)[i..] == [Normalised(hs, min)[i]] + Normalised(hs, min)[i + 1..];
    }
  }

  /** The table as written also lists every heading once, in order; the
      first one always at depth 1, the others at their normalised level. */
  lemma TocEntries(hs: seq<Heading>)
    requires hs != []
    ensures Entries(TocTokens(hs)) == [hs[0].(level := 1)] + Normalised(hs, MinLevel(hs))[1..]
  {
    var min := MinLevel(hs);
    var it := Item(1, hs[0].id, hs[0].text);
    var end := ItemEnd(HasChildren(hs, min, 0));
    var tail := Steps(hs, min, 1, 1);
    assert TocTokens(hs) == [UlOpen(0)] + [it, end] + tail;
    assert NoItems([UlOpen(0)]);
    ItemEntries([UlOpen(0)], it, end, tail);
    EntriesFrom(hs, min, 1, 1);
  }

  /** Both tables are empty exactly when there is no heading. */
  lemma TocEmptyIff(hs: seq<Heading>)
    ensures Render(TocTokens(hs)) == "" <==> hs == []
    ensures Render(FixedTokens(hs)) == "" <==> hs == []
  {
    if hs != [] {
      var min := MinLevel(hs);
      var level: nat := Norm(hs[0], min);
      var rest := Steps(hs, min, 0, 0)[1..];
      assert Steps(hs, min, 0, 0) == [UlOpen(0)] + rest;
      RenderCons(UlOpen(0), rest);
      var frest := FixedSteps(hs, min, 0, 0)[1..];
      assert FixedPre(level, 0) == [UlOpen(0)] + WrappedOpens(1, level, true);
      assert FixedSteps(hs, min, 0, 0) == [UlOpen(0)] + frest;
      RenderCons(UlOpen(0), frest);
    }
  }

  /** How many pieces satisfy `p`. */
  function Count(ts: seq<Tok>, p: Tok -> bool): nat {
    if ts == [] then 0 else (if p(ts[0]) then 1 else 0) + Count(ts[1..], p)
  }

  lemma {:induction false} CountConcat(a: seq<Tok>, b: seq<Tok>, p: Tok -> bool)
    ensures Count(a + b, p) == Count(a, p) + Count(b, p)
  {
    if a == [] {
      assert a + b == b;
    } else {
      assert (a + b)[0] == a[0] && (a + b)[1..] == a[1..] + b;
      CountConcat(a[1..], b, p);
    }
  }

  /** Pieces that write `<ul>`. */
  predicate UlOpening(t: Tok) {
    t.UlOpen?
  }

  /** Pieces that write `</ul>`. */
  predicate UlClosing(t: Tok) {
    t.UlClose? || t.Final?
  }

  lemma {:induction false} OpensCount(from: nat, to: int)
    ensures Count(Opens(from, to), UlOpening) == (if from < to then to - from else 0)
    ensures Count(Opens(from, to), UlClosing) == 0
    decreases if from < to then to - from else 0
  {
    if from < to {
      CountConcat([UlOpen(from)], Opens(from + 1, to), UlOpening);
      CountConcat([UlOpen(from)], Opens(from + 1, to), UlClosing);
      OpensCount(from + 1, to);
    }
  }

  lemma {:induction false} ClosesCount(from: nat, to: nat)
    requires to >= 1
    ensures Count(Closes(from, to), UlOpening) == 0
    ensures Count(Closes(from, to), UlClosing) == (if from > to then from - to else 0)
    decreases from
  {
    if from > to {
      var head := [UlClose(from - 1), LiClose(from - 2)];
      CountConcat(head, Closes(from - 1, to), UlOpening);
      CountConcat(head, Closes(from - 1, to), UlClosing);
      ClosesCount(from - 1, to);
    }
  }

  /** An item and its end write no list tag. */
  lemma ItemNoUl(it: Tok, end: Tok)
    requires it.Item? && end.ItemEnd?
    ensures Count([it, end], UlOpening) == 0 && Count([it, end], UlClosing) == 0
  {
    assert [it, end][1..] == [end];
    assert [end][1..] == [];
    assert !UlOpening(it) && !UlOpening(end) && !UlClosing(it) && !UlClosing(end);
    assert Count([end], UlOpening) == 0;
    assert Count([end], UlClosing) == 0;
  }

  /** Counting over three parts. */
  lemma CountThree(pre: seq<Tok>, item: seq<Tok>, tail: seq<Tok>, p: Tok -> bool)
    ensures Count(pre + (item + tail), p) == Count(pre, p) + Count(item, p) + Count(tail, p)
  {
    CountConcat(pre, item + tail, p);
    CountConcat(item, tail, p);
  }

  /** From heading `i` > 0 on, the builder closes `depth` more lists than it
      opens. */
  lemma {:induction false} UlCountFrom(hs: seq<Heading>, min: int, i: nat, depth: nat)
    requires 0 < i <= |hs| && LevelsFrom(hs, min) && depth >= 1
    ensures Count(Steps(hs, min, i, depth), UlClosing) == Count(Steps(hs, min, i, depth), UlOpening) + depth
    decreases |hs| - i
  {
    if i == |hs| {
      ClosesCount(depth, 1);
      CountConcat(Closes(depth, 1), [Final], UlOpening);
      CountConcat(Closes(depth, 1), [Final], UlClosing);
    } else {
      var level := Norm(hs[i], min);
      var pre := Pre(false, level, depth);
      var it := Item(level, hs[i].id, hs[i].text);
      var end := ItemEnd(HasChildren(hs, min, i));
      var tail := Steps(hs, min, i + 1, level);
      StepsSplit(hs, min, i, depth);
      if level > depth {
        OpensCount(depth, level);
      } else if level < depth {
        ClosesCount(depth, level);
      }
      ItemNoUl(it, end);
      CountThree(pre, [it, end], tail, UlOpening);
      CountThree(pre, [it, end], tail, UlClosing);
      UlCountFrom(hs, min, i + 1, level);
    }
  }

  /** The builder as written writes as many `</ul>` as `<ul>`. */
  lemma TocUlBalanced(hs: seq<Heading>)
    ensures Count(TocTokens(hs), UlOpening) == Count(TocTokens(hs), UlClosing)
  {
    if hs != [] {
      var min := MinLevel(hs);
      var pre := [UlOpen(0)];
      var it := Item(1, hs[0].id, hs[0].text);
      var end := ItemEnd(HasChildren(hs, min, 0));
      var tail := Steps(hs, min, 1, 1);
      StepsSplit(hs, min, 0, 0);
      assert pre[1..] == [];
      ItemNoUl(it, end);
      CountThree(pre, [it, end], tail, UlOpening);
      CountThree(pre, [it, end], tail, UlClosing);
      UlCountFrom(hs, min, 1, 1);
    }
  }
}
