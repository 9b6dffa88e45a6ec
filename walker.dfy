/** The imperative content processor: `processState` as a class whose fields
    the walk updates in place, `uniqueID`, the blocks of `processNode` and the
    loop over children, each proved to compute its specification in module
    `Augment`. */
module Walker {
  import opened Wrappers
  import opened Strings
  import opened Decimal
  import opened Registry
  import opened Slug
  import opened Dom
  import opened Augment
  import opened Links

  /** The style loop of the image block. */
  method AppendStyle(attrs: seq<Attr>, style: string) returns (r: seq<Attr>)
    ensures r == Styled(attrs, style)
  {
    var i := 0;
    while i < |attrs|
      invariant 0 <= i <= |attrs|
      invariant forall j :: 0 <= j < i ==> attrs[j].key != "style"
    {
      if attrs[i].key == "style" {
        r := attrs[i := attrs[i].(val := attrs[i].val + "; " + style)];
        return;
      }
      i := i + 1;
    }
    r := attrs + [Attr("style", style)];
  }

  class ProcessState {
    const env: Env
    var headings: seq<Heading>
    var ids: set<string>
    var links: seq<string>
    var log: seq<Warning>

    function State(): Collected
      reads this
    {
      Collected(headings, ids, links, log)
    }

    constructor (env: Env)
      ensures this.env == env && State() == Collected([], {}, [], [])
    {
      this.env := env;
      headings := [];
      ids := {};
      links := [];
      log := [];
    }

    /** `uniqueID`: the request when free, otherwise the first free
        `id-1`, `id-2`, ...; the answer is added to the registry. */
    method UniqueID(id: string) returns (r: string)
      modifies this`ids
      ensures r == Reserve(old(ids), id) && ids == old(ids) + {r}
    {
      if id !in ids {
        ids := ids + {id};
        return id;
      }
      var i := 1;
      while Suffixed(id, i) in ids
        invariant i >= 1 && ids == old(ids)
        invariant forall j :: 1 <= j < i ==> Suffixed(id, j) in ids
        decreases Pow10(MaxLen(ids)) - i
      {
        SuffixBound(ids, id, i);
        i := i + 1;
      }
      var k := FreeSuffix(ids, id, 1);
      assert k == i;
      r := Suffixed(id, i);
      ids := ids + {r};
    }

    /** The heading block of `processNode`. */
    method HeadingBlock(tag: string, cs: seq<Node>, attrs: seq<Attr>) returns (r: seq<Attr>)
      modifies this
      ensures Step(r, State()) == HeadingSpec(env, tag, cs, Step(attrs, old(State())))
    {
      r := attrs;
      if |tag| == 2 && tag[0] == 'h' && '1' <= tag[1] <= '6' {
        var text := TextOf(cs);
        var level := tag[1] as int - '0' as int;
        if !HasAttr(r, "id") {
          var slug := Slugify(env.u, text);
          if slug != "" {
            slug := UniqueID(slug);
            r := r + [Attr("id", slug)];
            headings := headings + [Heading(level, slug, Trim(text, env.u.isSpace))];
          }
        } else {
          var id := UniqueID(GetAttr(r, "id"));
          r := SetAttr(r, "id", id);
          headings := headings + [Heading(level, id, Trim(text, env.u.isSpace))];
        }
      }
    }

    /** The id block of `processNode`. */
    method IdBlock(tag: string, attrs: seq<Attr>) returns (r: seq<Attr>)
      modifies this
      ensures Step(r, State()) == IdSpec(tag, Step(attrs, old(State())))
    {
      r := attrs;
      if tag != "h1" && tag != "h2" && tag != "h3" && tag != "h4" && tag != "h5" && tag != "h6" {
        if HasAttr(r, "id") {
          var id := UniqueID(GetAttr(r, "id"));
          r := SetAttr(r, "id", id);
        }
      }
    }

    /** The image block of `processNode`. */
    method ImageBlock(tag: string, attrs: seq<Attr>) returns (r: seq<Attr>)
      modifies this
      ensures Step(r, State()) == ImageSpec(env, tag, Step(attrs, old(State())))
    {
      r := attrs;
      if tag == "img" {
        if !HasAttr(r, "alt") {
          log := log + [MissingAlt(GetAttr(r, "src"))];
        }
        var src := GetAttr(r, "src");
        if src != "" && !HasPrefix(src, "http") {
          var size := env.imageSize(src);
          if size.Some? {
            var (w, h) := size.value;
            r := AppendStyle(r, AspectRatio(w, h));
          }
        }
      }
    }

    /** The `src`/`poster` loop of `processNode`. */
    method MediaBlock(tag: string, attrs: seq<Attr>)
      modifies this
      ensures Step(attrs, State()) == MediaSpec(env, tag, Step(attrs, old(State())))
    {
      var names := MediaAttrs;
      var k := 0;
      while k < |names|
        invariant 0 <= k <= |names|
        invariant State() == old(State()).(log := old(log) + RefWarnings(env, tag, attrs, names[..k]))
      {
        ghost var before := log;
        CheckRef(tag, attrs, names[k]);
        assert names[..k + 1][..k] == names[..k];
        assert log == old(log) + (RefWarnings(env, tag, attrs, names[..k]) + RefWarning(env, tag, attrs, names[k]));
        k := k + 1;
      }
      assert names[..k] == names;
    }

    /** One round of that loop: the warning for one attribute, if any. */
    method CheckRef(tag: string, attrs: seq<Attr>, name: string)
      modifies this`log
      ensures log == old(log) + RefWarning(env, tag, attrs, name)
    {
      if HasAttr(attrs, name) {
        var v := GetAttr(attrs, name);
        if v == "" {
          log := log + [EmptyAttr(tag, name)];
        } else if !HasPrefix(v, "http") && !HasPrefix(v, "data:") && !HasPrefix(v, "//") {
          if !env.fileExists(v) {
            log := log + [MissingFile(tag, name, v)];
          }
        }
      }
    }

    /** The `href` part of the anchor block of `processNode`. */
    method AnchorHref(attrs: seq<Attr>) returns (r: seq<Attr>, href: string)
      modifies this
      ensures href == GetAttr(attrs, "href")
      ensures Step(r, State()) == AnchorLink(Step(attrs, old(State())))
    {
      r := attrs;
      href := GetAttr(r, "href");
      if HasPrefix(href, "http://") || HasPrefix(href, "https://") {
        if !HasAttr(r, "target") {
          r := r + [Attr("target", "_blank")];
        }
        if !HasAttr(r, "rel") {
          r := r + [Attr("rel", "noopener")];
        }
      } else if href == "" {
        log := log + [EmptyHref];
      } else {
        links := links + [href];
      }
    }

    /** The anchor block of `processNode`. */
    method AnchorBlock(tag: string, cs: seq<Node>, attrs: seq<Attr>) returns (r: seq<Attr>)
      modifies this
      ensures Step(r, State()) == AnchorSpec(env, tag, cs, Step(attrs, old(State())))
    {
      r := attrs;
      if tag == "a" {
        var href;
        r, href := AnchorHref(r);
        var text := Trim(TextOf(cs), env.u.isSpace);
        if text == "" && !HasAttr(r, "aria-label") {
          log := log + [NoLabel(href)];
        }
      }
    }

    /** `processNode`: the blocks in order on an element, then its
        children. The result is the edited node. */
    method ProcessNode(n: Node) returns (r: Node)
      modifies this
      ensures (r, State()) == Walk(env, n, old(State()))
      decreases n
    {
      if n.Element? {
        var attrs := HeadingBlock(n.tag, n.children, n.attrs);
        attrs := IdBlock(n.tag, attrs);
        attrs := ImageBlock(n.tag, attrs);
        MediaBlock(n.tag, attrs);
        attrs := AnchorBlock(n.tag, n.children, attrs);
        var cs := ProcessChildren(n.children);
        r := Element(n.tag, attrs, cs);
      } else {
        r := n;
      }
    }

    /** The loop over a node's children, and over the top-level nodes of the
        fragment in `processContent`. */
    method ProcessChildren(cs: seq<Node>) returns (r: seq<Node>)
      modifies this
      ensures (r, State()) == WalkSeq(env, cs, old(State()))
      decreases cs
    {
      r := [];
      var i := 0;
      assert cs[0..] == cs;
      assert [] + WalkSeq(env, cs, State()).0 == WalkSeq(env, cs, State()).0;
      while i < |cs|
        invariant 0 <= i <= |cs|
        invariant WalkSeq(env, cs, old(State())) ==
          (r + WalkSeq(env, cs[i..], State()).0, WalkSeq(env, cs[i..], State()).1)
      {
        ghost var before := State();
        assert cs[i..][0] == cs[i] && cs[i..][1..] == cs[i + 1..];
        var c := ProcessNode(cs[i]);
        ghost var rest := WalkSeq(env, cs[i + 1..], State());
        assert WalkSeq(env, cs[i..], before) == ([c] + rest.0, rest.1);
        assert r + ([c] + rest.0) == (r + [c]) + rest.0;
        r := r + [c];
        i := i + 1;
      }
      assert cs[i..] == [];
      assert r + [] == r;
    }

    /** The link check of `processContent`: each collected link in order. */
    method ValidateLinks()
      modifies this`log
      ensures log == old(log) + LinkWarnings(env, ids, links)
    {
      var i := 0;
      while i < |links|
        invariant 0 <= i <= |links|
        invariant log == old(log) + LinkWarnings(env, ids, links[..i])
      {
        CheckLink(links[i]);
        assert links[..i + 1][..i] == links[..i];
        i := i + 1;
      }
      assert links[..i] == links;
    }

    /** One round of that loop: the warning for one link, if any. */
    method CheckLink(link: string)
      modifies this`log
      ensures log == old(log) + LinkWarning(env, ids, link)
    {
      if HasPrefix(link, "#") {
        var id := link[1..];
        if id !in ids {
          log := log + [MissingId(link)];
        }
      } else if !HasPrefix(link, "http") && !HasPrefix(link, "mailto:") && !HasPrefix(link, "tel:") {
        if !env.fileExists(link) {
          log := log + [MissingLinkFile(link)];
        }
      }
    }
  }
}
