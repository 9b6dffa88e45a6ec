/** The part of `processContent` that follows parsing: walk the top-level
    nodes with a fresh state, check the collected links, serialise, and put
    the table of contents where `<toc>` stood. Parsing and serialisation are
    inputs: `parsed` is None when the parser fails, and `render` stands for
    the HTML renderer. The table is the one `buildTOC` writes as written,
    which is misnested for some heading levels (see `TocNesting`). */
module Content {
  import opened Wrappers
  import opened Strings
  import opened Dom
  import opened Augment
  import opened AugmentFacts
  import opened Links
  import opened Toc
  import opened TocNesting
  import opened TocItems
  import opened Walker

  /** The comment `<toc />` is turned into before parsing. */
  const TocPlaceholder: string := "<!--TOC_PLACEHOLDER-->"

  /** A fresh `processState`. */
  const Fresh: Collected := Collected([], {}, [], [])

  /** What `processContent` returns after parsing, and the state it ends
      with (its log holds the warnings of the walk, then of the link check). */
  function ContentSpec(env: Env, content: string, hasToc: bool, parsed: Option<seq<Node>>,
                       render: seq<Node> -> string): (string, Collected)
  {
    match parsed
    case None => (content, Fresh)
    case Some(nodes) =>
      var (out, c) := WalkSeq(env, nodes, Fresh);
      var html := render(out);
      var result := if hasToc then ReplaceAll(html, TocPlaceholder, Render(TocTokens(c.headings))) else html;
      (result, c.(log := c.log + LinkWarnings(env, c.ids, c.links)))
  }

  /** `processContent` from the parsed fragment on. */
  method ProcessContent(env: Env, content: string, hasToc: bool, parsed: Option<seq<Node>>,
                        render: seq<Node> -> string) returns (result: string, st: Collected)
    ensures (result, st) == ContentSpec(env, content, hasToc, parsed, render)
  {
    if parsed.None? {
      return content, Fresh;
    }
    var s := new ProcessState(env);
    var out := s.ProcessChildren(parsed.value);
    s.ValidateLinks();
    result := render(out);
    if hasToc {
      var toc := BuildToc(s.headings);
      result := ReplaceAll(result, TocPlaceholder, toc);
    }
    st := s.State();
  }

  /** After a successful parse: the headings, ids and links collected are
      exactly those the edited tree holds, in document order; the ids are
      pairwise distinct; the link check adds exactly the warnings of
      `LinkWarnings` for those links against those ids; and `<toc>` is
      replaced by the table `buildTOC` writes for those headings, whose
      shape `TableFacts` states. */
  lemma ContentFacts(env: Env, content: string, hasToc: bool, nodes: seq<Node>, render: seq<Node> -> string)
    ensures var (out, c) := WalkSeq(env, nodes, Fresh);
      var (result, st) := ContentSpec(env, content, hasToc, Some(nodes), render);
      var hs := HeadingsOfSeq(env.u, out);
      st.headings == hs &&
      st.ids == Elems(IdsOfSeq(out)) && FreshIds(IdsOfSeq(out), {}) &&
      st.links == LinksOfSeq(out) &&
      st.log == c.log + LinkWarnings(env, Elems(IdsOfSeq(out)), LinksOfSeq(out)) &&
      result == (if hasToc then ReplaceAll(render(out), TocPlaceholder, Render(TocTokens(hs))) else render(out))
  {
    var (out, c) := WalkSeq(env, nodes, Fresh);
    WalkSeqHeadings(env, nodes, Fresh);
    WalkSeqIds(env, nodes, Fresh);
    WalkSeqLinks(env, nodes, Fresh);
    var hs := HeadingsOfSeq(env.u, out);
    assert c.headings == hs;
  }

  /** The table `buildTOC` writes for `hs`: every heading once, in order,
      the first at depth 1 and the others at their normalised level; as many
      `</ul>` as `<ul>`; well nested when the first heading has the smallest
      level and no level is skipped. */
  lemma TableFacts(hs: seq<Heading>)
    ensures hs != [] ==> Entries(TocTokens(hs)) == [hs[0].(level := 1)] + Normalised(hs, MinLevel(hs))[1..]
    ensures TocItems.Count(TocTokens(hs), UlOpening) == TocItems.Count(TocTokens(hs), UlClosing)
    ensures (hs == [] || hs[0].level == MinLevel(hs)) && NoSkip(hs) ==> WellNested(TocTokens(hs))
  {
    if hs != [] {
      TocEntries(hs);
    }
    TocUlBalanced(hs);
    if (hs == [] || hs[0].level == MinLevel(hs)) && NoSkip(hs) {
      NoSkipAgree(hs);
    }
  }

  /** A `#x` link of the edited tree is reported by the link check exactly
      when no element of the page has the id `x`. */
  lemma ContentMissingId(env: Env, content: string, hasToc: bool, nodes: seq<Node>,
                         render: seq<Node> -> string, link: string)
    ensures var out := WalkSeq(env, nodes, Fresh).0;
      MissingId(link) in LinkWarnings(env, ContentSpec(env, content, hasToc, Some(nodes), render).1.ids,
                                      LinksOfSeq(out)) <==>
        link in LinksOfSeq(out) && HasPrefix(link, "#") && link[1..] !in Elems(IdsOfSeq(out))
  {
    var out := WalkSeq(env, nodes, Fresh).0;
    ContentFacts(env, content, hasToc, nodes, render);
    MissingIdIff(env, Elems(IdsOfSeq(out)), LinksOfSeq(out), link);
  }
}
