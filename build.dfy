/** The site build of `build.go`: read `pager.yaml`, warn about the
    configuration, read `content.html`, choose and version the stylesheet
    references, fill the page template, write `index.html` and then
    `index.md`. The site directory is a `Disk` whose files the build reads
    and writes; YAML parsing, the sha256 digest, `processContent`, the page
    template, the HTML-to-Markdown conversion and Go's `%q` quoting are the
    `Tools` the build is given. */
module Build {
  import opened Wrappers
  import opened Strings

  /** The fields of `pager.yaml` the build uses. */
  datatype Config = Config(
    title: string,
    description: string,
    favicon: string,
    card: string,
    domain: string,
    css: seq<string>,
    inlineCss: bool,
    inject: string)

  /** What the page template is filled with. */
  datatype PageData = PageData(
    title: string,
    description: string,
    favicon: string,
    card: string,
    css: seq<string>,
    inlineStyles: seq<string>,
    inject: string,
    content: string,
    domain: string)

  datatype Warning =
    | MissingTitle
    | MissingDescription
    | MissingDomain
    | LongTitle(bytes: nat)
    | LongDescription(bytes: nat)
    | MissingFavicon(path: string)
    | MissingCard(path: string)
    | MissingCss(path: string)
    | UnreadableCss(path: string)
    | MarkdownFailed
    | ContentWarning(note: string)  // one printed by `processContent`

  /** The errors `build` returns. */
  datatype Failure =
    | ConfigUnreadable
    | ConfigInvalid
    | ContentUnreadable
    | TemplateFailed
    | WriteFailed(path: string)

  /** A sha256 digest in hexadecimal: 64 digits. */
  type Digest = s: string | |s| == 64
    witness "0000000000000000000000000000000000000000000000000000000000000000"

  datatype Tools = Tools(
    parse: string -> Option<Config>,      // yaml.Unmarshal
    digest: string -> Digest,             // sha256 of a file's contents, in hex
    process: string -> (string, seq<Warning>),  // processContent: the HTML and the warnings it prints
    execute: PageData -> Option<string>,  // parsing and executing the page template
    markdown: string -> Option<string>,   // the HTML-to-Markdown conversion
    quote: string -> string)              // fmt's %q

  const ConfigFile := "pager.yaml"
  const ContentFile := "content.html"
  const IndexFile := "index.html"
  const MarkdownFile := "index.md"

  /** References that start with "http" are remote; all others name files
      of the site directory. */
  predicate Remote(ref: string) {
    HasPrefix(ref, "http")
  }

  // ---- Configuration warnings ----

  /** The number of bytes of the UTF-8 encoding of one character. */
  function Utf8Width(c: char): (n: nat)
    ensures 1 <= n <= 4
  {
    if c as int < 0x80 then 1
    else if c as int < 0x800 then 2
    else if c as int < 0x1_0000 then 3
    else 4
  }

  /** `len` of a Go string: its length in UTF-8 bytes. */
  function Utf8Len(s: string): (n: nat)
    ensures |s| <= n <= 4 * |s|
  {
    if s == [] then 0 else Utf8Len(s[..|s| - 1]) + Utf8Width(s[|s| - 1])
  }

  /** The warning for a referenced file: local and not found. */
  function FileWarning(ref: string, present: set<string>, w: Warning): seq<Warning> {
    if ref != "" && !Remote(ref) && ref !in present then [w] else []
  }

  /** The warnings of the stylesheet loop, in list order. */
  function CssWarnings(css: seq<string>, present: set<string>): seq<Warning> {
    if css == [] then []
    else
      var last := css[|css| - 1];
      CssWarnings(css[..|css| - 1], present) + (if !Remote(last) && last !in present then [MissingCss(last)] else [])
  }

  /** The warnings for empty essential fields. */
  function Essentials(cfg: Config): seq<Warning> {
    (if cfg.title == "" then [MissingTitle] else []) +
    (if cfg.description == "" then [MissingDescription] else []) +
    (if cfg.domain == "" then [MissingDomain] else [])
  }

  /** The warnings for a long title or description. */
  function Lengths(cfg: Config): seq<Warning> {
    var t := Utf8Len(cfg.title);
    var d := Utf8Len(cfg.description);
    (if t > 60 then [LongTitle(t)] else []) + (if d > 160 then [LongDescription(d)] else [])
  }

  /** The warnings for referenced files that are not found. */
  function References(cfg: Config, present: set<string>): seq<Warning> {
    FileWarning(cfg.favicon, present, MissingFavicon(cfg.favicon)) +
    FileWarning(cfg.card, present, MissingCard(cfg.card)) +
    CssWarnings(cfg.css, present)
  }

  /** Every warning about the configuration, in the order `build` gives
      them; `present` holds the paths `os.Stat` finds. */
  function ConfigWarnings(cfg: Config, present: set<string>): seq<Warning> {
    Essentials(cfg) + Lengths(cfg) + References(cfg, present)
  }

  /** When each configuration warning is due: an empty title, description
      or domain; a title over 60 or a description over 160 UTF-8 bytes; a
      local favicon, card image or stylesheet that is not found. */
  predicate Warned(cfg: Config, present: set<string>, w: Warning) {
    match w
    case MissingTitle => cfg.title == ""
    case MissingDescription => cfg.description == ""
    case MissingDomain => cfg.domain == ""
    case LongTitle(n) => n == Utf8Len(cfg.title) && n > 60
    case LongDescription(n) => n == Utf8Len(cfg.description) && n > 160
    case MissingFavicon(p) => p == cfg.favicon && p != "" && !Remote(p) && p !in present
    case MissingCard(p) => p == cfg.card && p != "" && !Remote(p) && p !in present
    case MissingCss(p) => p in cfg.css && !Remote(p) && p !in present
    case UnreadableCss(_) => false
    case MarkdownFailed => false
    case ContentWarning(_) => false
  }

  lemma {:induction false} CssWarningsIff(css: seq<string>, present: set<string>, w: Warning)
    ensures w in CssWarnings(css, present) <==>
      w.MissingCss? && w.path in css && !Remote(w.path) && w.path !in present
  {
    if css != [] {
      CssWarningsIff(css[..|css| - 1], present, w);
      assert css == css[..|css| - 1] + [css[|css| - 1]];
    }
  }

  lemma EssentialsIff(cfg: Config, w: Warning)
    ensures w in Essentials(cfg) <==> (w.MissingTitle? || w.MissingDescription? || w.MissingDomain?) && Warned(cfg, {}, w)
  {
  }

  lemma LengthsIff(cfg: Config, w: Warning)
    ensures w in Lengths(cfg) <==> (w.LongTitle? || w.LongDescription?) && Warned(cfg, {}, w)
  {
  }

  lemma ReferencesIff(cfg: Config, present: set<string>, w: Warning)
    ensures w in References(cfg, present) <==>
      (w.MissingFavicon? || w.MissingCard? || w.MissingCss?) && Warned(cfg, present, w)
  {
    CssWarningsIff(cfg.css, present, w);
  }

  /** A configuration warning is given exactly when it is due. */
  lemma ConfigWarningsIff(cfg: Config, present: set<string>, w: Warning)
    ensures w in ConfigWarnings(cfg, present) <==> Warned(cfg, present, w)
  {
    EssentialsIff(cfg, w);
    LengthsIff(cfg, w);
    ReferencesIff(cfg, present, w);
    var e, l, r := Essentials(cfg), Lengths(cfg), References(cfg, present);
    assert w in e + l + r <==> w in e || w in l || w in r;
  }

  // ---- Stylesheets ----

  /** The stylesheets kept as links when inlining: the remote ones. */
  function RemoteOnly(css: seq<string>): seq<string> {
    if css == [] then []
    else
      var last := css[|css| - 1];
      RemoteOnly(css[..|css| - 1]) + (if Remote(last) then [last] else [])
  }

  lemma {:induction false} RemoteOnlyConcat(a: seq<string>, b: seq<string>)
    ensures RemoteOnly(a + b) == RemoteOnly(a) + RemoteOnly(b)
    decreases |b|
  {
    if b != [] {
      var init := b[..|b| - 1];
      assert (a + b)[..|a + b| - 1] == a + init;
      RemoteOnlyConcat(a, init);
    } else {
      assert a + b == a;
    }
  }

  /** When inlining, the links kept are exactly the remote stylesheets, in
      their original order. */
  lemma {:induction false} RemoteOnlyIff(css: seq<string>, x: string)
    ensures x in RemoteOnly(css) <==> x in css && Remote(x)
    ensures |RemoteOnly(css)| <= |css|
  {
    if css != [] {
      RemoteOnlyIff(css[..|css| - 1], x);
      assert css == css[..|css| - 1] + [css[|css| - 1]];
    }
  }

  /** The styles inlined: the contents of each local stylesheet that can
      be read, in list order. */
  function Inlined(css: seq<string>, files: map<string, string>): seq<string> {
    if css == [] then []
    else
      var last := css[|css| - 1];
      Inlined(css[..|css| - 1], files) + (if !Remote(last) && last in files then [files[last]] else [])
  }

  /** The warnings of the inlining loop. */
  function InlineWarnings(css: seq<string>, files: map<string, string>): seq<Warning> {
    if css == [] then []
    else
      var last := css[|css| - 1];
      InlineWarnings(css[..|css| - 1], files) + (if !Remote(last) && last !in files then [UnreadableCss(last)] else [])
  }

  /** Every local stylesheet is either inlined or warned about, and no
      remote one is either. */
  lemma {:induction false} InlineCount(css: seq<string>, files: map<string, string>)
    ensures |Inlined(css, files)| + |InlineWarnings(css, files)| + |RemoteOnly(css)| == |css|
  {
    if css != [] {
      InlineCount(css[..|css| - 1], files);
    }
  }

  /** `hashFile`: the first 8 hex digits of the digest of the file, or
      None when the file cannot be read. */
  function HashOf(files: map<string, string>, path: string, digest: string -> Digest): (r: Option<string>)
    ensures r.Some? <==> path in files
    ensures r.Some? ==> |r.value| == 8 && HasPrefix(digest(files[path]), r.value)
  {
    if path in files then Some(digest(files[path])[..8]) else None
  }

  /** A stylesheet reference after cache busting. */
  function Versioned(ref: string, files: map<string, string>, digest: string -> Digest): string {
    if Remote(ref) then ref
    else
      match HashOf(files, ref, digest)
      case None => ref
      case Some(h) => ref + "?v=" + h
  }

  function VersionedAll(refs: seq<string>, files: map<string, string>, digest: string -> Digest): seq<string> {
    seq(|refs|, i requires 0 <= i < |refs| => Versioned(refs[i], files, digest))
  }

  /** Cache busting keeps the length and the order; a remote reference and
      a local one that cannot be hashed are kept as they are, and a local one
      that can becomes itself followed by `?v=` and the 8-digit hash. */
  lemma VersionedShape(refs: seq<string>, files: map<string, string>, digest: string -> Digest, i: nat)
    requires i < |refs|
    ensures var out := VersionedAll(refs, files, digest);
      |out| == |refs| && HasPrefix(out[i], refs[i]) &&
      (Remote(refs[i]) || refs[i] !in files ==> out[i] == refs[i]) &&
      (!Remote(refs[i]) && refs[i] in files ==>
        exists h :: |h| == 8 && HasPrefix(digest(files[refs[i]]), h) && out[i] == refs[i] + "?v=" + h)
  {
    var out := VersionedAll(refs, files, digest);
    if !Remote(refs[i]) && refs[i] in files {
      var h := HashOf(files, refs[i], digest).value;
      assert out[i] == refs[i] + "?v=" + h;
    }
  }

  /** The domain with `https://` put in front unless it is empty or
      already has a scheme. */
  function NormalizeDomain(domain: string): string {
    if domain != "" && !HasPrefix(domain, "http://") && !HasPrefix(domain, "https://") then "https://" + domain
    else domain
  }

  /** The scheme is added exactly when the domain is non-empty and has
      none; after that it has one, so normalising again changes nothing. */
  lemma NormalizeDomainFacts(domain: string)
    ensures NormalizeDomain(domain) == "https://" + domain <==>
      domain != "" && !HasPrefix(domain, "http://") && !HasPrefix(domain, "https://")
    ensures NormalizeDomain(domain) != "https://" + domain ==> NormalizeDomain(domain) == domain
    ensures NormalizeDomain(NormalizeDomain(domain)) == NormalizeDomain(domain)
  {
    assert |"https://" + domain| == 8 + |domain|;
    if domain != "" && !HasPrefix(domain, "http://") && !HasPrefix(domain, "https://") {
      assert ("https://" + domain)[..8] == "https://";
    }
  }

  /** The page handed to the template. */
  function Page(cfg: Config, files: map<string, string>, t: Tools, content: string): PageData {
    var refs := if cfg.inlineCss then RemoteOnly(cfg.css) else cfg.css;
    PageData(cfg.title, cfg.description, cfg.favicon, cfg.card,
      VersionedAll(refs, files, t.digest),
      if cfg.inlineCss then Inlined(cfg.css, files) else [],
      cfg.inject, t.process(content).0, NormalizeDomain(cfg.domain))
  }

  /** The front matter of `index.md`. */
  function Header(cfg: Config, quote: string -> string): string {
    "---\ntitle: " + quote(cfg.title) + "\ndescription: " + quote(cfg.description) +
    "\ndomain: " + quote(cfg.domain) + "\n---\n\n"
  }

  // ---- The whole build ----

  /** The error, the files and the warnings a build leaves behind. */
  datatype Outcome = Outcome(err: Option<Failure>, files: map<string, string>, log: seq<Warning>)

  /** `build`, step by step: `present` is what `os.Stat` finds and
      `locked` the paths a write fails on. */
  function BuildSpec(files: map<string, string>, present: set<string>, locked: set<string>,
                     log: seq<Warning>, t: Tools): Outcome
  {
    if ConfigFile !in files then Outcome(Some(ConfigUnreadable), files, log)
    else
      match t.parse(files[ConfigFile])
      case None => Outcome(Some(ConfigInvalid), files, log)
      case Some(cfg) => Render(cfg, files, locked, log + ConfigWarnings(cfg, present), t)
  }

  /** From reading `content.html` on: the inlining warnings, then those of
      `processContent`, come before publishing. */
  function Render(cfg: Config, files: map<string, string>, locked: set<string>, log: seq<Warning>, t: Tools): Outcome {
    if ContentFile !in files then Outcome(Some(ContentUnreadable), files, log)
    else
      Publish(cfg, files, locked,
        log + (if cfg.inlineCss then InlineWarnings(cfg.css, files) else []) + t.process(files[ContentFile]).1, t,
        Page(cfg, files, t, files[ContentFile]))
  }

  /** From executing the template on: write `index.html`, then `index.md`. */
  function Publish(cfg: Config, files: map<string, string>, locked: set<string>, log: seq<Warning>, t: Tools,
                   data: PageData): Outcome
  {
    match t.execute(data)
    case None => Outcome(Some(TemplateFailed), files, log)
    case Some(page) =>
      if IndexFile in locked then Outcome(Some(WriteFailed(IndexFile)), files, log)
      else
        var files1 := files[IndexFile := page];
        match t.markdown(data.content)
        case None => Outcome(None, files1, log + [MarkdownFailed])
        case Some(md) =>
          if MarkdownFile in locked then Outcome(Some(WriteFailed(MarkdownFile)), files1, log)
          else Outcome(None, files1[MarkdownFile := Header(cfg, t.quote) + md], log)
  }

  /** Publishing writes nothing on an error before `index.html`, and
      otherwise writes the filled template there and touches no other file
      but `index.md`. */
  lemma PublishWrites(cfg: Config, files: map<string, string>, locked: set<string>, log: seq<Warning>, t: Tools,
                      data: PageData)
    ensures var o := Publish(cfg, files, locked, log, t, data);
      (o.err.Some? && o.err != Some(WriteFailed(MarkdownFile)) ==> o.files == files) &&
      (o.err.None? || o.err == Some(WriteFailed(MarkdownFile)) ==>
        IndexFile in o.files && Some(o.files[IndexFile]) == t.execute(data) &&
        o.files - {MarkdownFile} == files[IndexFile := o.files[IndexFile]] - {MarkdownFile})
  {
  }

  /** Every error but the failed write of `index.md` returns before
      anything is written, so a failed build has written `index.html` only
      when the write of `index.md` failed; a successful build, and that
      one, write the filled template there and touch no other file but
      `index.md`. */
  lemma NoWriteOnError(files: map<string, string>, present: set<string>, locked: set<string>,
                       log: seq<Warning>, t: Tools)
    ensures var o := BuildSpec(files, present, locked, log, t);
      (o.err.Some? && o.err != Some(WriteFailed(MarkdownFile)) ==> o.files == files) &&
      (o.err.None? || o.err == Some(WriteFailed(MarkdownFile)) ==>
        var cfg := t.parse(files[ConfigFile]).value;
        IndexFile in o.files &&
        Some(o.files[IndexFile]) == t.execute(Page(cfg, files, t, files[ContentFile])) &&
        o.files - {MarkdownFile} == files[IndexFile := o.files[IndexFile]] - {MarkdownFile})
  {
    if ConfigFile in files && t.parse(files[ConfigFile]).Some? && ContentFile in files {
      var cfg := t.parse(files[ConfigFile]).value;
      var log1 := log + ConfigWarnings(cfg, present);
      PublishWrites(cfg, files, locked,
        log1 + (if cfg.inlineCss then InlineWarnings(cfg.css, files) else []) + t.process(files[ContentFile]).1, t,
        Page(cfg, files, t, files[ContentFile]));
    }
  }

  /** Why a build fails, in the order the checks are made; a build that
      succeeds could write `index.html` and only adds warnings to the log. */
  lemma FailureCauses(files: map<string, string>, present: set<string>, locked: set<string>,
                      log: seq<Warning>, t: Tools)
    ensures var o := BuildSpec(files, present, locked, log, t);
      (o.err == Some(ConfigUnreadable) <==> ConfigFile !in files) &&
      (o.err == Some(ConfigInvalid) <==> ConfigFile in files && t.parse(files[ConfigFile]).None?) &&
      (o.err == Some(ContentUnreadable) <==>
        ConfigFile in files && t.parse(files[ConfigFile]).Some? && ContentFile !in files) &&
      (o.err.None? ==> IndexFile !in locked && |log| <= |o.log| && o.log[..|log|] == log)
  {
    if ConfigFile in files && t.parse(files[ConfigFile]).Some? {
      var cfg := t.parse(files[ConfigFile]).value;
      var w := ConfigWarnings(cfg, present);
      RenderFacts(cfg, files, locked, log + w, t);
      var o := Render(cfg, files, locked, log + w, t);
      if o.err.None? {
        LogExtended(log, w, [], o.log);
      }
    }
  }

  /** From reading `content.html` on, the build fails for a missing
      `content.html` or in publishing, and when it succeeds the log only
      grew. */
  lemma RenderFacts(cfg: Config, files: map<string, string>, locked: set<string>, log: seq<Warning>, t: Tools)
    ensures var o := Render(cfg, files, locked, log, t);
      (o.err == Some(ContentUnreadable) <==> ContentFile !in files) &&
      (o.err.None? || o.err.value.ContentUnreadable? || o.err.value.TemplateFailed? || o.err.value.WriteFailed?) &&
      (o.err.None? ==> IndexFile !in locked && |log| <= |o.log| && o.log[..|log|] == log)
  {
    if ContentFile in files {
      var i := if cfg.inlineCss then InlineWarnings(cfg.css, files) else [];
      var p := t.process(files[ContentFile]).1;
      var data := Page(cfg, files, t, files[ContentFile]);
      PublishFacts(cfg, files, locked, log + i + p, t, data);
      var o := Publish(cfg, files, locked, log + i + p, t, data);
      if o.err.None? {
        LogExtended(log, i, p, o.log);
      }
    }
  }

  /** Publishing fails only on the template or a write, and when it
      succeeds `index.html` could be written and the log only grew. */
  lemma PublishFacts(cfg: Config, files: map<string, string>, locked: set<string>, log: seq<Warning>, t: Tools,
                     data: PageData)
    ensures var o := Publish(cfg, files, locked, log, t, data);
      (o.err.None? || o.err.value.TemplateFailed? || o.err.value.WriteFailed?) &&
      (o.err.None? ==> IndexFile !in locked && |log| <= |o.log| && o.log[..|log|] == log)
  {
  }

  lemma LogExtended(log: seq<Warning>, w: seq<Warning>, i: seq<Warning>, out: seq<Warning>)
    requires |log + w + i| <= |out| && out[..|log + w + i|] == log + w + i
    ensures |log| <= |out| && out[..|log|] == log
  {
    assert out[..|log|] == (log + w + i)[..|log|];
  }

  /** The site directory the build works in. */
  class Disk {
    var files: map<string, string>
    const dirs: set<string>
    const locked: set<string>
    var log: seq<Warning>

    constructor (files: map<string, string>, dirs: set<string>, locked: set<string>)
      ensures this.files == files && this.dirs == dirs && this.locked == locked && log == []
    {
      this.files := files;
      this.dirs := dirs;
      this.locked := locked;
      log := [];
    }

    /** What `os.Stat` finds: files and directories. */
    function Present(): set<string>
      reads this
    {
      files.Keys + dirs
    }

    /** `os.WriteFile`: fails on a locked path and then changes nothing. */
    method Write(path: string, data: string) returns (ok: bool)
      modifies this`files
      ensures ok == (path !in locked)
      ensures files == if ok then old(files)[path := data] else old(files)
    {
      ok := path !in locked;
      if ok {
        files := files[path := data];
      }
    }

    /** The configuration checks of `build`, from the title to the
        stylesheet loop. */
    method WarnConfig(cfg: Config)
      modifies this`log
      ensures log == old(log) + ConfigWarnings(cfg, Present())
    {
      var present := Present();
      var e := WarnEssentials(cfg);
      var l := WarnLengths(cfg);
      var r := WarnReferences(cfg, present);
      log := log + e + l + r;
    }

    /** The inlining loop: the contents of each readable local stylesheet,
        a warning for each unreadable one. */
    method InlineStyles(css: seq<string>) returns (styles: seq<string>)
      modifies this`log
      ensures styles == Inlined(css, files) && log == old(log) + InlineWarnings(css, files)
    {
      styles := [];
      var i := 0;
      while i < |css|
        invariant 0 <= i <= |css|
        invariant styles == Inlined(css[..i], files) && log == old(log) + InlineWarnings(css[..i], files)
      {
        var ref := css[i];
        if !HasPrefix(ref, "http") {
          if ref in files {
            styles := styles + [files[ref]];
          } else {
            log := log + [UnreadableCss(ref)];
          }
        }
        assert css[..i + 1][..i] == css[..i];
        i := i + 1;
      }
      assert css[..i] == css;
    }

    /** `hashFile`. */
    method HashFile(path: string, digest: string -> Digest) returns (r: Option<string>)
      ensures r == HashOf(files, path, digest)
    {
      if path !in files {
        return None;
      }
      var hex := digest(files[path]);
      r := Some(hex[..8]);
    }

    /** The cache-busting loop. */
    method VersionRefs(refs: seq<string>, digest: string -> Digest) returns (out: seq<string>)
      ensures out == VersionedAll(refs, files, digest)
    {
      out := [];
      var i := 0;
      while i < |refs|
        invariant 0 <= i <= |refs| && |out| == i
        invariant forall k :: 0 <= k < i ==> out[k] == Versioned(refs[k], files, digest)
      {
        var ref := refs[i];
        if HasPrefix(ref, "http") {
          out := out + [ref];
        } else {
          var hash := HashFile(ref, digest);
          if hash.None? {
            out := out + [ref];
          } else {
            out := out + [ref + "?v=" + hash.value];
          }
        }
        i := i + 1;
      }
    }

    /** `build`. */
    method Build(t: Tools) returns (err: Option<Failure>)
      modifies this
      ensures Outcome(err, files, log) == BuildSpec(old(files), old(Present()), locked, old(log), t)
    {
      if ConfigFile !in files {
        return Some(ConfigUnreadable);
      }
      var parsed := t.parse(files[ConfigFile]);
      if parsed.None? {
        return Some(ConfigInvalid);
      }
      var cfg := parsed.value;
      WarnConfig(cfg);
      if ContentFile !in files {
        return Some(ContentUnreadable);
      }
      var content := files[ContentFile];
      var data := PageFor(cfg, content, t);
      err := PublishPage(cfg, t, data);
    }

    /** The page data: the inlined styles, the versioned links and the
        processed content, with the warnings of inlining and then of
        `processContent`. */
    method PageFor(cfg: Config, content: string, t: Tools) returns (data: PageData)
      modifies this`log
      ensures data == Page(cfg, files, t, content)
      ensures log == old(log) + (if cfg.inlineCss then InlineWarnings(cfg.css, files) else []) + t.process(content).1
    {
      var inline: seq<string> := [];
      if cfg.inlineCss {
        inline := InlineStyles(cfg.css);
      }
      var refs := cfg.css;
      if cfg.inlineCss {
        refs := RemoteRefs(cfg.css);
      }
      refs := VersionRefs(refs, t.digest);
      var processed := t.process(content);
      log := log + processed.1;
      data := PageData(cfg.title, cfg.description, cfg.favicon, cfg.card, refs, inline,
        cfg.inject, processed.0, NormalizeDomain(cfg.domain));
    }

    /** From executing the template on: write `index.html`, then
        `index.md`. */
    method PublishPage(cfg: Config, t: Tools, data: PageData) returns (err: Option<Failure>)
      modifies this`files, this`log
      ensures Outcome(err, files, log) == Publish(cfg, old(files), locked, old(log), t, data)
    {
      var page := t.execute(data);
      if page.None? {
        return Some(TemplateFailed);
      }
      var ok := Write(IndexFile, page.value);
      if !ok {
        return Some(WriteFailed(IndexFile));
      }
      var md := t.markdown(data.content);
      if md.None? {
        log := log + [MarkdownFailed];
        return None;
      }
      ok := Write(MarkdownFile, Header(cfg, t.quote) + md.value);
      if !ok {
        return Some(WriteFailed(MarkdownFile));
      }
      return None;
    }
  }

  /** The warnings for empty essential fields, as the checks give them. */
  method WarnEssentials(cfg: Config) returns (ws: seq<Warning>)
    ensures ws == Essentials(cfg)
  {
    ws := [];
    if cfg.title == "" {
      ws := ws + [MissingTitle];
    }
    if cfg.description == "" {
      ws := ws + [MissingDescription];
    }
    if cfg.domain == "" {
      ws := ws + [MissingDomain];
    }
  }

  /** The length checks. */
  method WarnLengths(cfg: Config) returns (ws: seq<Warning>)
    ensures ws == Lengths(cfg)
  {
    ws := [];
    var t := Utf8Len(cfg.title);
    if t > 60 {
      ws := ws + [LongTitle(t)];
    }
    var d := Utf8Len(cfg.description);
    if d > 160 {
      ws := ws + [LongDescription(d)];
    }
  }

  /** The checks of the favicon, the card image and each stylesheet. */
  method WarnReferences(cfg: Config, present: set<string>) returns (ws: seq<Warning>)
    ensures ws == References(cfg, present)
  {
    ws := [];
    if cfg.favicon != "" && !HasPrefix(cfg.favicon, "http") && cfg.favicon !in present {
      ws := ws + [MissingFavicon(cfg.favicon)];
    }
    if cfg.card != "" && !HasPrefix(cfg.card, "http") && cfg.card !in present {
      ws := ws + [MissingCard(cfg.card)];
    }
    ghost var before := ws;
    var i := 0;
    while i < |cfg.css|
      invariant 0 <= i <= |cfg.css|
      invariant ws == before + CssWarnings(cfg.css[..i], present)
    {
      var css := cfg.css[i];
      if !HasPrefix(css, "http") && css !in present {
        ws := ws + [MissingCss(css)];
      }
      assert cfg.css[..i + 1][..i] == cfg.css[..i];
      i := i + 1;
    }
    assert cfg.css[..i] == cfg.css;
  }

  /** The loop that keeps only the remote stylesheets. */
  method RemoteRefs(css: seq<string>) returns (remote: seq<string>)
    ensures remote == RemoteOnly(css)
  {
    remote := [];
    var i := 0;
    while i < |css|
      invariant 0 <= i <= |css|
      invariant remote == RemoteOnly(css[..i])
    {
      if HasPrefix(css[i], "http") {
        remote := remote + [css[i]];
      }
      assert css[..i + 1][..i] == css[..i];
      i := i + 1;
    }
    assert css[..i] == css;
  }
}
