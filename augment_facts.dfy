/** What the tree walk of module `Augment` guarantees: per block, per element
    and for the whole pre-order walk. */
module AugmentFacts {
  import opened Strings
  import opened Registry
  import opened Slug
  import opened Dom
  import opened Augment

  /** Key `k` reads the same in `a` and in `b`. */
  predicate Keeps(a: seq<Attr>, b: seq<Attr>, k: string) {
    (HasAttr(b, k) <==> HasAttr(a, k)) && GetAttr(b, k) == GetAttr(a, k)
  }

  // ---- Attribute edits of the blocks ----

  /** The style loop is `setAttr` with the extended value. */
  lemma StyledIsWithAttr(attrs: seq<Attr>, style: string)
    ensures Styled(attrs, style) ==
      WithAttr(attrs, "style",
        if HasAttr(attrs, "style") then GetAttr(attrs, "style") + "; " + style else style)
  {
  }

  /** Image sizing: an existing `style` becomes `old + "; " + style` in place
      and nothing else changes; otherwise exactly one `style` pair is
      appended. */
  lemma StyledEffect(attrs: seq<Attr>, style: string)
    ensures var r := Styled(attrs, style);
      GetAttr(r, "style") ==
        (if HasAttr(attrs, "style") then GetAttr(attrs, "style") + "; " + style else style) &&
      (HasAttr(attrs, "style") ==>
        |r| == |attrs| &&
        exists i :: 0 <= i < |attrs| && attrs[i].key == "style" &&
          r[i] == Attr("style", attrs[i].val + "; " + style) &&
          forall j :: 0 <= j < |attrs| && j != i ==> r[j] == attrs[j]) &&
      (!HasAttr(attrs, "style") ==> r == attrs + [Attr("style", style)]) &&
      forall k :: k != "style" ==> Keeps(attrs, r, k)
  {
    var v := if HasAttr(attrs, "style") then GetAttr(attrs, "style") + "; " + style else style;
    StyledIsWithAttr(attrs, style);
    WithAttrSame(attrs, "style", v);
    WithAttrShape(attrs, "style", v);
    forall k | k != "style" ensures Keeps(attrs, Styled(attrs, style), k) {
      WithAttrOther(attrs, "style", v, k);
    }
  }

  /** External anchors: `target` and `rel` are appended exactly when absent,
      and no value already present is overwritten. */
  lemma ExternalAttrsEffect(attrs: seq<Attr>)
    ensures var r := ExternalAttrs(attrs);
      r == attrs
        + (if HasAttr(attrs, "target") then [] else [Attr("target", "_blank")])
        + (if HasAttr(attrs, "rel") then [] else [Attr("rel", "noopener")]) &&
      HasAttr(r, "target") && HasAttr(r, "rel") &&
      (forall k :: HasAttr(attrs, k) ==> Keeps(attrs, r, k)) &&
      (forall k :: k != "target" && k != "rel" ==> Keeps(attrs, r, k))
  {
    var a := AddIfAbsent(attrs, "target", "_blank");
    AddIfAbsentEffect(attrs, "target", "_blank");
    AddIfAbsentEffect(a, "rel", "noopener");
    assert ExternalAttrs(attrs) == AddIfAbsent(a, "rel", "noopener");
    assert HasAttr(attrs, "rel") <==> HasAttr(a, "rel");
  }

  /** Appending a pair only when its key is absent. */
  function AddIfAbsent(attrs: seq<Attr>, key: string, val: string): seq<Attr> {
    if HasAttr(attrs, key) then attrs else attrs + [Attr(key, val)]
  }

  lemma AddIfAbsentEffect(attrs: seq<Attr>, key: string, val: string)
    ensures var r := AddIfAbsent(attrs, key, val);
      HasAttr(r, key) &&
      (forall k :: HasAttr(r, k) <==> HasAttr(attrs, k) || k == key) &&
      (forall k :: HasAttr(attrs, k) || k != key ==> GetAttr(r, k) == GetAttr(attrs, k))
  {
    if !HasAttr(attrs, key) {
      forall k ensures HasAttr(attrs + [Attr(key, val)], k) <==> HasAttr(attrs, k) || k == key
        ensures HasAttr(attrs, k) || k != key ==> GetAttr(attrs + [Attr(key, val)], k) == GetAttr(attrs, k)
      {
        AppendAttr(attrs, key, val, k);
      }
    }
  }

  // ---- The blocks, one at a time ----

  /** The heading block: an `h1`-`h6` without `id` whose slug is empty is
      left alone; every other heading ends up with an `id` (a fresh one) and
      appends exactly one record whose level is the tag digit, whose id is
      the element's resulting `id` and whose text is the trimmed text. */
  lemma HeadingFacts(env: Env, tag: string, cs: seq<Node>, s: Step)
    ensures var h := HeadingSpec(env, tag, cs, s);
      h.st.links == s.st.links && h.st.log == s.st.log &&
      h.st.headings == s.st.headings + HeadingRecord(env.u, tag, h.attrs, cs) &&
      (forall k :: k != "id" ==> Keeps(s.attrs, h.attrs, k)) &&
      (!IsHeading(tag) ==> h == s) &&
      (IsHeading(tag) ==>
        h.st.ids == s.st.ids + Elems(IdRecord(h.attrs)) &&
        FreshIds(IdRecord(h.attrs), s.st.ids) &&
        (!HasAttr(s.attrs, "id") && SlugSpec(env.u, TextOf(cs)) == "" ==> h == s) &&
        (HasAttr(s.attrs, "id") || SlugSpec(env.u, TextOf(cs)) != "" ==>
          HasAttr(h.attrs, "id") &&
          h.st.headings == s.st.headings +
            [Heading(Level(tag), GetAttr(h.attrs, "id"), Trim(TextOf(cs), env.u.isSpace))]))
  {
    if IsHeading(tag) {
      if !HasAttr(s.attrs, "id") {
        HeadingSlugFacts(env, tag, cs, s);
      } else {
        HeadingIdFacts(env, tag, cs, s);
      }
    }
  }

  lemma HeadingSlugFacts(env: Env, tag: string, cs: seq<Node>, s: Step)
    requires IsHeading(tag) && !HasAttr(s.attrs, "id")
    ensures var h := HeadingSpec(env, tag, cs, s);
      h.st.headings == s.st.headings + HeadingRecord(env.u, tag, h.attrs, cs) &&
      (forall k :: k != "id" ==> Keeps(s.attrs, h.attrs, k)) &&
      h.st.ids == s.st.ids + Elems(IdRecord(h.attrs)) &&
      FreshIds(IdRecord(h.attrs), s.st.ids) &&
      (SlugSpec(env.u, TextOf(cs)) != "" ==> HasAttr(h.attrs, "id"))
  {
    var slug := SlugSpec(env.u, TextOf(cs));
    if slug != "" {
      var id := Reserve(s.st.ids, slug);
      var a := s.attrs + [Attr("id", id)];
      assert HeadingSpec(env, tag, cs, s).attrs == a;
      forall k | k != "id" ensures Keeps(s.attrs, a, k) {
        AppendAttr(s.attrs, "id", id, k);
      }
      AppendAttr(s.attrs, "id", id, "id");
      assert IdRecord(a) == [id];
      assert Elems([id]) == {id};
    }
  }

  lemma HeadingIdFacts(env: Env, tag: string, cs: seq<Node>, s: Step)
    requires IsHeading(tag) && HasAttr(s.attrs, "id")
    ensures var h := HeadingSpec(env, tag, cs, s);
      h.st.headings == s.st.headings + HeadingRecord(env.u, tag, h.attrs, cs) &&
      (forall k :: k != "id" ==> Keeps(s.attrs, h.attrs, k)) &&
      h.st.ids == s.st.ids + Elems(IdRecord(h.attrs)) &&
      FreshIds(IdRecord(h.attrs), s.st.ids) &&
      HasAttr(h.attrs, "id")
  {
    var id := Reserve(s.st.ids, GetAttr(s.attrs, "id"));
    var a := WithAttr(s.attrs, "id", id);
    var h := HeadingSpec(env, tag, cs, s);
    var hd := Heading(Level(tag), id, Trim(TextOf(cs), env.u.isSpace));
    assert h == Step(a, Collected(s.st.headings + [hd], s.st.ids + {id}, s.st.links, s.st.log));
    WithAttrSame(s.attrs, "id", id);
    assert HeadingRecord(env.u, tag, a, cs) == [hd];
    forall k | k != "id" ensures Keeps(s.attrs, a, k) {
      WithAttrOther(s.attrs, "id", id, k);
    }
    assert IdRecord(a) == [id];
    assert Elems([id]) == {id};
  }

  /** The id block: on a non-heading element with an `id`, the value is
      replaced by a fresh one; nothing else is touched. */
  lemma IdFacts(tag: string, s: Step)
    ensures var i := IdSpec(tag, s);
      i.st.headings == s.st.headings && i.st.links == s.st.links && i.st.log == s.st.log &&
      (forall k :: k != "id" ==> Keeps(s.attrs, i.attrs, k)) &&
      (NamedHeading(tag) ==> i == s) &&
      (!NamedHeading(tag) ==>
        (HasAttr(i.attrs, "id") <==> HasAttr(s.attrs, "id")) &&
        i.st.ids == s.st.ids + Elems(IdRecord(i.attrs)) &&
        FreshIds(IdRecord(i.attrs), s.st.ids))
  {
    if !NamedHeading(tag) && HasAttr(s.attrs, "id") {
      var id := Reserve(s.st.ids, GetAttr(s.attrs, "id"));
      var a := WithAttr(s.attrs, "id", id);
      WithAttrSame(s.attrs, "id", id);
      forall k | k != "id" ensures Keeps(s.attrs, a, k) {
        WithAttrOther(s.attrs, "id", id, k);
      }
      assert IdRecord(a) == [id];
      assert Elems([id]) == {id};
    }
  }

  /** The image block touches only `style` and the log. */
  lemma ImageFacts(env: Env, tag: string, s: Step)
    ensures var i := ImageSpec(env, tag, s);
      i.st.headings == s.st.headings && i.st.ids == s.st.ids && i.st.links == s.st.links &&
      forall k :: k != "style" ==> Keeps(s.attrs, i.attrs, k)
  {
    if tag == "img" {
      var src := GetAttr(s.attrs, "src");
      if src != "" && !HasPrefix(src, "http") && env.imageSize(src).Some? {
        var (w, h) := env.imageSize(src).value;
        StyledEffect(s.attrs, AspectRatio(w, h));
      }
    }
  }

  /** The anchor block touches only `target`, `rel`, the links and the log;
      it collects the `href` exactly when it is a non-empty local link. */
  lemma AnchorFacts(env: Env, tag: string, cs: seq<Node>, s: Step)
    ensures var a := AnchorSpec(env, tag, cs, s);
      a.st.headings == s.st.headings && a.st.ids == s.st.ids &&
      a.st.links == s.st.links + LinkRecord(tag, s.attrs) &&
      forall k :: k != "target" && k != "rel" ==> Keeps(s.attrs, a.attrs, k)
  {
    if tag == "a" {
      AnchorLinkFacts(s);
      var l := AnchorLink(s);
      var a := AnchorSpec(env, tag, cs, s);
      assert a.attrs == l.attrs && a.st.headings == l.st.headings && a.st.ids == l.st.ids && a.st.links == l.st.links;
    }
  }

  lemma AnchorLinkFacts(s: Step)
    ensures var l := AnchorLink(s);
      l.st.headings == s.st.headings && l.st.ids == s.st.ids &&
      l.st.links == s.st.links + LinkRecord("a", s.attrs) &&
      forall k :: k != "target" && k != "rel" ==> Keeps(s.attrs, l.attrs, k)
  {
    if External(GetAttr(s.attrs, "href")) {
      ExternalAttrsEffect(s.attrs);
    }
  }

  /** The three blocks after the id blocks keep `id` and `href`. */
  lemma LaterFacts(env: Env, tag: string, cs: seq<Node>, s: Step)
    ensures var l := AnchorSpec(env, tag, cs, MediaSpec(env, tag, ImageSpec(env, tag, s)));
      l.st.headings == s.st.headings && l.st.ids == s.st.ids &&
      l.st.links == s.st.links + LinkRecord(tag, l.attrs) &&
      Keeps(s.attrs, l.attrs, "id") && Keeps(s.attrs, l.attrs, "href")
  {
    var i := ImageSpec(env, tag, s);
    var m := MediaSpec(env, tag, i);
    ImageFacts(env, tag, s);
    AnchorFacts(env, tag, cs, m);
    var l := AnchorSpec(env, tag, cs, m);
    assert m.attrs == i.attrs && m.st.headings == i.st.headings && m.st.ids == i.st.ids && m.st.links == i.st.links;
    assert Keeps(s.attrs, i.attrs, "id") && Keeps(s.attrs, i.attrs, "href");
    assert Keeps(m.attrs, l.attrs, "id") && Keeps(m.attrs, l.attrs, "href");
    assert LinkRecord(tag, s.attrs) == LinkRecord(tag, m.attrs) == LinkRecord(tag, l.attrs);
  }

  /** The whole element step: its heading record, its fresh id and its
      collected link are exactly what the resulting element shows. */
  lemma ElementFacts(env: Env, tag: string, attrs: seq<Attr>, cs: seq<Node>, st: Collected)
    ensures var e := ElementSpec(env, tag, attrs, cs, st);
      e.st.headings == st.headings + HeadingRecord(env.u, tag, e.attrs, cs) &&
      e.st.ids == st.ids + Elems(IdRecord(e.attrs)) &&
      FreshIds(IdRecord(e.attrs), st.ids) &&
      e.st.links == st.links + LinkRecord(tag, e.attrs)
  {
    var s0 := Step(attrs, st);
    var s1 := HeadingSpec(env, tag, cs, s0);
    var s2 := IdSpec(tag, s1);
    HeadingTagIff(tag);
    HeadingFacts(env, tag, cs, s0);
    IdFacts(tag, s1);
    LaterFacts(env, tag, cs, s2);
    var e := ElementSpec(env, tag, attrs, cs, st);
    assert IdRecord(e.attrs) == IdRecord(s2.attrs);
    assert HeadingRecord(env.u, tag, e.attrs, cs) == HeadingRecord(env.u, tag, s2.attrs, cs);
  }

  // ---- The walk ----

  /** The walk only edits attribute lists: the tree shape, tags and text are
      those of the input. */
  lemma {:induction false} WalkShape(env: Env, n: Node, st: Collected)
    ensures Skeleton(Walk(env, n, st).0) == Skeleton(n)
    ensures TextContent(Walk(env, n, st).0) == TextContent(n)
    decreases n
  {
    if n.Element? {
      var e := ElementSpec(env, n.tag, n.attrs, n.children, st);
      WalkSeqShape(env, n.children, e.st);
    }
  }

  lemma {:induction false} WalkSeqShape(env: Env, cs: seq<Node>, st: Collected)
    ensures |WalkSeq(env, cs, st).0| == |cs|
    ensures SkeletonSeq(WalkSeq(env, cs, st).0) == SkeletonSeq(cs)
    ensures TextOf(WalkSeq(env, cs, st).0) == TextOf(cs)
    decreases cs
  {
    if cs != [] {
      var (n', st1) := Walk(env, cs[0], st);
      WalkShape(env, cs[0], st);
      WalkSeqShape(env, cs[1..], st1);
      var out := WalkSeq(env, cs, st).0;
      assert out[0] == n' && out[1..] == WalkSeq(env, cs[1..], st1).0;
    }
  }

  /** Heading records are appended in pre-order, one per heading that ends
      up with an `id`, each carrying that `id`. */
  lemma {:induction false} WalkHeadings(env: Env, n: Node, st: Collected)
    ensures Walk(env, n, st).1.headings == st.headings + HeadingsOf(env.u, Walk(env, n, st).0)
    decreases n
  {
    match n
    case Element(tag, attrs, cs) =>
      var e := ElementSpec(env, tag, attrs, cs, st);
      WalkSeqShape(env, cs, e.st);
      WalkSeqHeadings(env, cs, e.st);
      ElementHeadings(env, tag, attrs, cs, st, WalkSeq(env, cs, e.st));
    case _ =>
  }

  /** One element of the walk, given what the walk of its children does. */
  lemma ElementHeadings(env: Env, tag: string, attrs: seq<Attr>, cs: seq<Node>, st: Collected,
                        r: (seq<Node>, Collected))
    requires var e := ElementSpec(env, tag, attrs, cs, st);
      r.1.headings == e.st.headings + HeadingsOfSeq(env.u, r.0) && TextOf(r.0) == TextOf(cs)
    ensures var e := ElementSpec(env, tag, attrs, cs, st);
      r.1.headings == st.headings + HeadingsOf(env.u, Element(tag, e.attrs, r.0))
  {
    var e := ElementSpec(env, tag, attrs, cs, st);
    ElementFacts(env, tag, attrs, cs, st);
    HeadingsJoin(env.u, tag, e.attrs, cs, r.0, st.headings, e.st.headings, r.1.headings);
  }

  /** The element's own record, then its children's headings: the heading
      record depends on the children only through their text. */
  lemma HeadingsJoin(u: Unicode, tag: string, attrs: seq<Attr>, cs: seq<Node>, kids: seq<Node>,
                     h0: seq<Heading>, h1: seq<Heading>, h2: seq<Heading>)
    requires h1 == h0 + HeadingRecord(u, tag, attrs, cs)
    requires h2 == h1 + HeadingsOfSeq(u, kids)
    requires TextOf(kids) == TextOf(cs)
    ensures h2 == h0 + HeadingsOf(u, Element(tag, attrs, kids))
  {
    HeadingRecordText(u, tag, attrs, kids, cs);
    assert HeadingsOf(u, Element(tag, attrs, kids)) == HeadingRecord(u, tag, attrs, cs) + HeadingsOfSeq(u, kids);
  }

  lemma HeadingRecordText(u: Unicode, tag: string, attrs: seq<Attr>, a: seq<Node>, b: seq<Node>)
    requires TextOf(a) == TextOf(b)
    ensures HeadingRecord(u, tag, attrs, a) == HeadingRecord(u, tag, attrs, b)
  {
  }

  lemma {:induction false} WalkSeqHeadings(env: Env, cs: seq<Node>, st: Collected)
    ensures WalkSeq(env, cs, st).1.headings == st.headings + HeadingsOfSeq(env.u, WalkSeq(env, cs, st).0)
    decreases cs
  {
    if cs != [] {
      var (n', st1) := Walk(env, cs[0], st);
      WalkHeadings(env, cs[0], st);
      WalkSeqHeadings(env, cs[1..], st1);
      var out := WalkSeq(env, cs, st).0;
      assert out[0] == n' && out[1..] == WalkSeq(env, cs[1..], st1).0;
    }
  }

  lemma FreshConcat(xs: seq<string>, ys: seq<string>, before: set<string>)
    requires FreshIds(xs, before) && FreshIds(ys, before + Elems(xs))
    ensures FreshIds(xs + ys, before)
    ensures Elems(xs + ys) == Elems(xs) + Elems(ys)
  {
    var zs := xs + ys;
    forall i, j | 0 <= i < j < |zs| ensures zs[i] != zs[j] {
      if i < |xs| && j >= |xs| {
        assert zs[i] in Elems(xs);
        assert zs[j] == ys[j - |xs|];
      }
    }
  }

  /** Every `id` the walk leaves in the tree was reserved during the walk:
      the values are pairwise distinct, none was taken before, and the
      registry grows by exactly these values. */
  lemma {:induction false} WalkIds(env: Env, n: Node, st: Collected)
    ensures var (n', st') := Walk(env, n, st);
      st'.ids == st.ids + Elems(IdsOf(n')) && FreshIds(IdsOf(n'), st.ids)
    decreases n
  {
    if n.Element? {
      var e := ElementSpec(env, n.tag, n.attrs, n.children, st);
      ElementFacts(env, n.tag, n.attrs, n.children, st);
      WalkSeqIds(env, n.children, e.st);
      FreshConcat(IdRecord(e.attrs), IdsOfSeq(WalkSeq(env, n.children, e.st).0), st.ids);
    }
  }

  lemma {:induction false} WalkSeqIds(env: Env, cs: seq<Node>, st: Collected)
    ensures var (cs', st') := WalkSeq(env, cs, st);
      st'.ids == st.ids + Elems(IdsOfSeq(cs')) && FreshIds(IdsOfSeq(cs'), st.ids)
    decreases cs
  {
    if cs != [] {
      var (n', st1) := Walk(env, cs[0], st);
      WalkIds(env, cs[0], st);
      WalkSeqIds(env, cs[1..], st1);
      var out := WalkSeq(env, cs, st).0;
      assert out[0] == n' && out[1..] == WalkSeq(env, cs[1..], st1).0;
      FreshConcat(IdsOf(n'), IdsOfSeq(out[1..]), st.ids);
    }
  }

  /** Local links are collected in pre-order, exactly the non-empty,
      non-`http(s)://` `href`s of the anchors. */
  lemma {:induction false} WalkLinks(env: Env, n: Node, st: Collected)
    ensures Walk(env, n, st).1.links == st.links + LinksOf(Walk(env, n, st).0)
    decreases n
  {
    match n
    case Element(tag, attrs, cs) =>
      var e := ElementSpec(env, tag, attrs, cs, st);
      WalkSeqLinks(env, cs, e.st);
      ElementLinks(env, tag, attrs, cs, st, WalkSeq(env, cs, e.st));
    case _ =>
  }

  /** One element of the walk, given what the walk of its children does. */
  lemma ElementLinks(env: Env, tag: string, attrs: seq<Attr>, cs: seq<Node>, st: Collected,
                     r: (seq<Node>, Collected))
    requires var e := ElementSpec(env, tag, attrs, cs, st);
      r.1.links == e.st.links + LinksOfSeq(r.0)
    ensures var e := ElementSpec(env, tag, attrs, cs, st);
      r.1.links == st.links + LinksOf(Element(tag, e.attrs, r.0))
  {
    ElementFacts(env, tag, attrs, cs, st);
  }

  lemma {:induction false} WalkSeqLinks(env: Env, cs: seq<Node>, st: Collected)
    ensures WalkSeq(env, cs, st).1.links == st.links + LinksOfSeq(WalkSeq(env, cs, st).0)
    decreases cs
  {
    if cs != [] {
      var (n', st1) := Walk(env, cs[0], st);
      WalkLinks(env, cs[0], st);
      WalkSeqLinks(env, cs[1..], st1);
      var out := WalkSeq(env, cs, st).0;
      assert out[0] == n' && out[1..] == WalkSeq(env, cs[1..], st1).0;
    }
  }
}
