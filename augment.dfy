/** The specification of the content processor's tree walk (`processNode`):
    one function per block of the per-element step, in the order the source
    applies them, and the pre-order walk over the tree. The walk only edits
    attribute lists and appends to the collected headings, ids, links and
    warnings. The imperative walk in module `Walker` is proved to compute
    exactly `Walk`. */
module Augment {
  import opened Wrappers
  import opened Strings
  import opened Decimal
  import opened Registry
  import opened Slug
  import opened Dom

  /** What the walk asks of the outside world. Paths are attribute values as
      written; joining them to the page directory is the oracles' business. */
  datatype Env = Env(
    u: Unicode,
    fileExists: string -> bool,
    imageSize: string -> Option<(nat, nat)>)

  /** `heading`: one table-of-contents entry. */
  datatype Heading = Heading(level: int, id: string, text: string)

  /** The warnings the processor prints, as data. */
  datatype Warning =
    | MissingAlt(src: string)
    | EmptyAttr(tag: string, attr: string)
    | MissingFile(tag: string, attr: string, path: string)
    | EmptyHref
    | NoLabel(href: string)
    | MissingId(link: string)
    | MissingLinkFile(link: string)

  /** The fields of `processState` the walk updates, plus the warning log. */
  datatype Collected = Collected(
    headings: seq<Heading>,
    ids: set<string>,
    links: seq<string>,
    log: seq<Warning>)

  /** The element's attribute list and the collected state between blocks. */
  datatype Step = Step(attrs: seq<Attr>, st: Collected)

  /** The test of the heading block: two characters, 'h' and a digit 1-6. */
  predicate IsHeading(tag: string) {
    |tag| == 2 && tag[0] == 'h' && '1' <= tag[1] <= '6'
  }

  /** The test of the generic id block: one of the six heading names. */
  predicate NamedHeading(tag: string) {
    tag == "h1" || tag == "h2" || tag == "h3" || tag == "h4" || tag == "h5" || tag == "h6"
  }

  /** The two blocks test the same tags, so every element with an id goes
      through exactly one of them. */
  lemma HeadingTagIff(tag: string)
    ensures IsHeading(tag) <==> NamedHeading(tag)
  {
    if IsHeading(tag) {
      assert tag == ['h', tag[1]];
    }
  }

  function Level(tag: string): int
    requires IsHeading(tag)
  {
    tag[1] as int - '0' as int
  }

  /** `uniqueID` on the collected state. */
  function Claim(st: Collected, id: string): (string, Collected) {
    var r := Reserve(st.ids, id);
    (r, st.(ids := st.ids + {r}))
  }

  function AddHeading(st: Collected, h: Heading): Collected {
    st.(headings := st.headings + [h])
  }

  function Warn(st: Collected, w: Warning): Collected {
    st.(log := st.log + [w])
  }

  /** Auto-id of headings: an `h1`-`h6` without `id` gets the de-duplicated
      slug of its text (and nothing when the slug is empty); one with `id`
      has it de-duplicated. Either way a heading record is appended. */
  function HeadingSpec(env: Env, tag: string, cs: seq<Node>, s: Step): Step {
    if !IsHeading(tag) then s
    else
      var text := TextOf(cs);
      var trimmed := Trim(text, env.u.isSpace);
      if !HasAttr(s.attrs, "id") then
        var slug := SlugSpec(env.u, text);
        if slug == "" then s
        else
          var (id, st) := Claim(s.st, slug);
          Step(s.attrs + [Attr("id", id)], AddHeading(st, Heading(Level(tag), id, trimmed)))
      else
        var (id, st) := Claim(s.st, GetAttr(s.attrs, "id"));
        Step(WithAttr(s.attrs, "id", id), AddHeading(st, Heading(Level(tag), id, trimmed)))
  }

  /** Document-wide de-duplication of the `id` of every other element. */
  function IdSpec(tag: string, s: Step): Step {
    if NamedHeading(tag) || !HasAttr(s.attrs, "id") then s
    else
      var (id, st) := Claim(s.st, GetAttr(s.attrs, "id"));
      Step(WithAttr(s.attrs, "id", id), st)
  }

  /** `fmt.Sprintf("aspect-ratio: %d / %d", w, h)` */
  function AspectRatio(w: nat, h: nat): string {
    "aspect-ratio: " + Itoa(w) + " / " + Itoa(h)
  }

  /** The style loop of the image block: the first `style` pair gets
      `"; " + style` appended to its value, or a `style` pair is added. */
  function Styled(attrs: seq<Attr>, style: string): seq<Attr> {
    var i := KeyIndex(attrs, "style");
    if i < 0 then attrs + [Attr("style", style)]
    else attrs[i := Attr("style", attrs[i].val + "; " + style)]
  }

  /** Images: warn on a missing `alt`; give a local image whose size is
      known an `aspect-ratio` style. */
  function ImageSpec(env: Env, tag: string, s: Step): Step {
    if tag != "img" then s
    else
      var src := GetAttr(s.attrs, "src");
      var st := if !HasAttr(s.attrs, "alt") then Warn(s.st, MissingAlt(src)) else s.st;
      if src != "" && !HasPrefix(src, "http") && env.imageSize(src).Some? then
        var (w, h) := env.imageSize(src).value;
        Step(Styled(s.attrs, AspectRatio(w, h)), st)
      else Step(s.attrs, st)
  }

  /** A reference that is checked against the file system. */
  predicate LocalRef(v: string) {
    !HasPrefix(v, "http") && !HasPrefix(v, "data:") && !HasPrefix(v, "//")
  }

  /** The warning, if any, for one of the `src`/`poster` attributes. */
  function RefWarning(env: Env, tag: string, attrs: seq<Attr>, name: string): seq<Warning> {
    if !HasAttr(attrs, name) then []
    else
      var v := GetAttr(attrs, name);
      if v == "" then [EmptyAttr(tag, name)]
      else if LocalRef(v) && !env.fileExists(v) then [MissingFile(tag, name, v)]
      else []
  }

  /** The warnings for a list of attribute names, in list order. */
  function RefWarnings(env: Env, tag: string, attrs: seq<Attr>, names: seq<string>): seq<Warning> {
    if names == [] then []
    else RefWarnings(env, tag, attrs, names[..|names| - 1]) + RefWarning(env, tag, attrs, names[|names| - 1])
  }

  const MediaAttrs: seq<string> := ["src", "poster"]

  /** Media references of any element: only the log changes. */
  function MediaSpec(env: Env, tag: string, s: Step): Step {
    Step(s.attrs, s.st.(log := s.st.log + RefWarnings(env, tag, s.attrs, MediaAttrs)))
  }

  predicate External(href: string) {
    HasPrefix(href, "http://") || HasPrefix(href, "https://")
  }

  /** A link kept for validation after the walk. */
  predicate LocalLink(href: string) {
    href != "" && !External(href)
  }

  /** `target="_blank"` and `rel="noopener"`, each only when absent. */
  function ExternalAttrs(attrs: seq<Attr>): seq<Attr> {
    var a := if !HasAttr(attrs, "target") then attrs + [Attr("target", "_blank")] else attrs;
    if !HasAttr(a, "rel") then a + [Attr("rel", "noopener")] else a
  }

  /** The `href` part of the anchor block: external anchors open in a new
      tab, an empty `href` warns, any other is collected. */
  function AnchorLink(s: Step): Step {
    var href := GetAttr(s.attrs, "href");
    if External(href) then Step(ExternalAttrs(s.attrs), s.st)
    else if href == "" then Step(s.attrs, Warn(s.st, EmptyHref))
    else Step(s.attrs, s.st.(links := s.st.links + [href]))
  }

  /** Anchors: the `href` part, then a warning for an anchor without text
      and without `aria-label`. */
  function AnchorSpec(env: Env, tag: string, cs: seq<Node>, s: Step): Step {
    if tag != "a" then s
    else
      var href := GetAttr(s.attrs, "href");
      var s1 := AnchorLink(s);
      if Trim(TextOf(cs), env.u.isSpace) == "" && !HasAttr(s1.attrs, "aria-label") then
        Step(s1.attrs, Warn(s1.st, NoLabel(href)))
      else s1
  }

  /** The whole per-element step, blocks in source order. */
  function ElementSpec(env: Env, tag: string, attrs: seq<Attr>, cs: seq<Node>, st: Collected): Step {
    var s1 := HeadingSpec(env, tag, cs, Step(attrs, st));
    var s2 := IdSpec(tag, s1);
    var s3 := ImageSpec(env, tag, s2);
    var s4 := MediaSpec(env, tag, s3);
    AnchorSpec(env, tag, cs, s4)
  }

  /** `processNode`: the element step, then the children in order. */
  function Walk(env: Env, n: Node, st: Collected): (Node, Collected)
    decreases n
  {
    match n
    case Element(tag, attrs, cs) =>
      var e := ElementSpec(env, tag, attrs, cs, st);
      var (cs', st') := WalkSeq(env, cs, e.st);
      (Element(tag, e.attrs, cs'), st')
    case _ => (n, st)
  }

  function WalkSeq(env: Env, cs: seq<Node>, st: Collected): (seq<Node>, Collected)
    decreases cs
  {
    if cs == [] then ([], st)
    else
      var (n', st1) := Walk(env, cs[0], st);
      var (rest, st2) := WalkSeq(env, cs[1..], st1);
      ([n'] + rest, st2)
  }

  // ---- What the walk leaves behind, read off the output tree ----

  /** The tree with every attribute list emptied. */
  function Skeleton(n: Node): Node
    decreases n
  {
    match n
    case Element(tag, _, cs) => Element(tag, [], SkeletonSeq(cs))
    case _ => n
  }

  function SkeletonSeq(cs: seq<Node>): seq<Node>
    decreases cs
  {
    if cs == [] then [] else [Skeleton(cs[0])] + SkeletonSeq(cs[1..])
  }

  /** The heading record an output element stands for, if any. */
  function HeadingRecord(u: Unicode, tag: string, attrs: seq<Attr>, cs: seq<Node>): seq<Heading> {
    if IsHeading(tag) && HasAttr(attrs, "id") then
      [Heading(Level(tag), GetAttr(attrs, "id"), Trim(TextOf(cs), u.isSpace))]
    else []
  }

  /** The headings of a tree with ids, in pre-order. */
  function HeadingsOf(u: Unicode, n: Node): seq<Heading>
    decreases n
  {
    match n
    case Element(tag, attrs, cs) => HeadingRecord(u, tag, attrs, cs) + HeadingsOfSeq(u, cs)
    case _ => []
  }

  function HeadingsOfSeq(u: Unicode, cs: seq<Node>): seq<Heading>
    decreases cs
  {
    if cs == [] then [] else HeadingsOf(u, cs[0]) + HeadingsOfSeq(u, cs[1..])
  }

  function IdRecord(attrs: seq<Attr>): seq<string> {
    if HasAttr(attrs, "id") then [GetAttr(attrs, "id")] else []
  }

  /** The `id` values of a tree, in pre-order. */
  function IdsOf(n: Node): seq<string>
    decreases n
  {
    match n
    case Element(_, attrs, cs) => IdRecord(attrs) + IdsOfSeq(cs)
    case _ => []
  }

  function IdsOfSeq(cs: seq<Node>): seq<string>
    decreases cs
  {
    if cs == [] then [] else IdsOf(cs[0]) + IdsOfSeq(cs[1..])
  }

  function LinkRecord(tag: string, attrs: seq<Attr>): seq<string> {
    if tag == "a" && LocalLink(GetAttr(attrs, "href")) then [GetAttr(attrs, "href")] else []
  }

  /** The local `href`s of a tree's anchors, in pre-order. */
  function LinksOf(n: Node): seq<string>
    decreases n
  {
    match n
    case Element(tag, attrs, cs) => LinkRecord(tag, attrs) + LinksOfSeq(cs)
    case _ => []
  }

  function LinksOfSeq(cs: seq<Node>): seq<string>
    decreases cs
  {
    if cs == [] then [] else LinksOf(cs[0]) + LinksOfSeq(cs[1..])
  }

  /** `xs` holds pairwise distinct values none of which is in `before`. */
  predicate FreshIds(xs: seq<string>, before: set<string>) {
    (forall i, j :: 0 <= i < j < |xs| ==> xs[i] != xs[j]) &&
    (forall i :: 0 <= i < |xs| ==> xs[i] !in before)
  }

  function Elems(xs: seq<string>): set<string> {
    set x | x in xs
  }
}
