/** The parts of `main.go`, the earlier single-file variant of the program,
    that differ from their later counterparts: the flat table of contents,
    and the production build that copies each local stylesheet to a name
    carrying its content hash. Its slug, unique-id, file-server, client and
    watch code is the same algorithm as the later modules model. */
module Legacy {
  import opened Wrappers
  import opened Strings
  import opened Augment
  import opened Build
  import opened Include

  // ---- The flat table of contents ----

  /** One list line: a link to the heading's id, labelled with its text. */
  function FlatLine(h: Heading): string {
    "  <li><a href=\"#" + h.id + "\">" + h.text + "</a></li>\n"
  }

  /** The lines of all headings, in order. */
  function FlatItems(hs: seq<Heading>): string {
    if hs == [] then "" else FlatItems(hs[..|hs| - 1]) + FlatLine(hs[|hs| - 1])
  }

  /** What the flat `buildTOC` writes: nothing for no headings, otherwise
      one list holding one line per heading. */
  function FlatToc(hs: seq<Heading>): string {
    if hs == [] then "" else "<ul>\n" + FlatItems(hs) + "</ul>"
  }

  /** The flat `buildTOC`: one append per heading into a builder. */
  method BuildFlatToc(hs: seq<Heading>) returns (s: string)
    ensures s == FlatToc(hs)
  {
    if |hs| == 0 {
      return "";
    }
    var sb := "<ul>\n";
    var i := 0;
    while i < |hs|
      invariant 0 <= i <= |hs|
      invariant sb == "<ul>\n" + FlatItems(hs[..i])
    {
      assert hs[..i + 1][..i] == hs[..i];
      AppendLine("<ul>\n", FlatItems(hs[..i]), FlatLine(hs[i]));
      sb := sb + FlatLine(hs[i]);
      i := i + 1;
    }
    assert hs[..i] == hs;
    sb := sb + "</ul>";
    s := sb;
  }

  lemma AppendLine(head: string, items: string, line: string)
    ensures (head + items) + line == head + (items + line)
  {
  }

  /** The list is empty exactly when there are no headings; otherwise it
      opens with `<ul>` and a newline and closes with `</ul>`. */
  lemma FlatTocShape(hs: seq<Heading>)
    ensures FlatToc(hs) == "" <==> hs == []
    ensures hs != [] ==> HasPrefix(FlatToc(hs), "<ul>\n") && HasSuffix(FlatToc(hs), "</ul>")
  {
    if hs != [] {
      var s := FlatToc(hs);
      assert s[..5] == "<ul>\n";
      assert s[|s| - 5..] == "</ul>";
    }
  }

  /** The items are exactly the lines of the headings, one per heading, in
      input order. */
  lemma {:induction false} FlatItemsLines(hs: seq<Heading>)
    ensures FlatItems(hs) == Concat(seq(|hs|, k requires 0 <= k < |hs| => FlatLine(hs[k])))
  {
    if hs != [] {
      var init := hs[..|hs| - 1];
      FlatItemsLines(init);
      var lines := seq(|hs|, k requires 0 <= k < |hs| => FlatLine(hs[k]));
      assert lines == seq(|init|, k requires 0 <= k < |init| => FlatLine(init[k])) + [FlatLine(hs[|hs| - 1])];
      ConcatAppend(seq(|init|, k requires 0 <= k < |init| => FlatLine(init[k])), FlatLine(hs[|hs| - 1]));
    }
  }

  /** No nesting: the levels play no part, so headings with the same ids and
      texts give the same list whatever their levels. */
  lemma {:induction false} FlatIgnoresLevels(hs: seq<Heading>, gs: seq<Heading>)
    requires |hs| == |gs|
    requires forall k :: 0 <= k < |hs| ==> hs[k].id == gs[k].id && hs[k].text == gs[k].text
    ensures FlatToc(hs) == FlatToc(gs)
  {
    ItemsIgnoreLevels(hs, gs);
  }

  lemma {:induction false} ItemsIgnoreLevels(hs: seq<Heading>, gs: seq<Heading>)
    requires |hs| == |gs|
    requires forall k :: 0 <= k < |hs| ==> hs[k].id == gs[k].id && hs[k].text == gs[k].text
    ensures FlatItems(hs) == FlatItems(gs)
  {
    if hs != [] {
      ItemsIgnoreLevels(hs[..|hs| - 1], gs[..|gs| - 1]);
      assert FlatLine(hs[|hs| - 1]) == FlatLine(gs[|gs| - 1]);
    }
  }

  // ---- Production stylesheet names ----

  /** `base.hash.ext`: the hash goes in front of the extension. */
  function HashedName(css: string, hash: string): string {
    var ext := Ext(css);
    css[..|css| - |ext|] + "." + hash + ext
  }

  /** The hashed name keeps the stem and the extension around `.hash`, so
      removing that part gives the original name back; it is never the
      original name. */
  lemma HashedNameParts(css: string, hash: string)
    ensures var b := |css| - |Ext(css)|; var r := HashedName(css, hash);
      |r| == |css| + |hash| + 1 && r[..b] == css[..b] && r[b] == '.' &&
      r[b + 1..b + 1 + |hash|] == hash && r[b + 1 + |hash|..] == Ext(css) &&
      r[..b] + r[b + 1 + |hash|..] == css
  {
    var ext := Ext(css);
    var b := |css| - |ext|;
    var stem := css[..b];
    ExtSuffix(css);
    assert css[b..] == ext;
    assert css == stem + ext by { assert css == css[..b] + css[b..]; }
    assert HashedName(css, hash) == stem + "." + hash + ext;
    Spliced(stem, hash, ext, css);
  }

  lemma Spliced(stem: string, hash: string, ext: string, css: string)
    requires css == stem + ext
    ensures var b := |stem|; var r := stem + "." + hash + ext;
      |r| == |css| + |hash| + 1 && r[..b] == css[..b] && r[b] == '.' &&
      r[b + 1..b + 1 + |hash|] == hash && r[b + 1 + |hash|..] == ext &&
      r[..b] + r[b + 1 + |hash|..] == css
  {
    var r := stem + "." + hash + ext;
    assert r == stem + (['.'] + (hash + ext));
    assert r[..|stem|] == stem;
    assert r[|stem| + 1..] == hash + ext;
  }

  /** The extension is the end of the path. */
  lemma {:induction false} ExtSuffix(path: string)
    ensures path[|path| - |Ext(path)|..] == Ext(path)
    decreases |path|
  {
    if path != [] && path[|path| - 1] != '/' && path[|path| - 1] != '.' {
      var init := path[..|path| - 1];
      ExtSuffix(init);
      if Ext(init) != "" {
        assert path[|path| - |Ext(path)|..] == path[|init| - |Ext(init)|..|init|] + [path[|path| - 1]];
      }
    }
  }

  /** The stylesheet names and the files after a production build. */
  datatype Renamed = Renamed(names: seq<string>, files: map<string, string>)

  /** One stylesheet: remote ones are kept; a local one that can be read is
      copied to its hashed name, which replaces it when the copy is
      written; on any failure the original name is kept. */
  function RenameOne(css: string, files: map<string, string>, locked: set<string>,
                     digest: string -> Digest): Renamed {
    if HasPrefix(css, "http") then Renamed([css], files)
    else match HashOf(files, css, digest)
      case None => Renamed([css], files)
      case Some(h) =>
        var name := HashedName(css, h);
        if name in locked then Renamed([css], files)
        else Renamed([name], files[name := files[css]])
  }

  /** All stylesheets in order; a copy written for one is visible to the
      next. */
  function RenameAll(css: seq<string>, files: map<string, string>, locked: set<string>,
                     digest: string -> Digest): Renamed {
    if css == [] then Renamed([], files)
    else
      var r := RenameAll(css[..|css| - 1], files, locked, digest);
      var one := RenameOne(css[|css| - 1], r.files, locked, digest);
      Renamed(r.names + one.names, one.files)
  }

  /** Each name is the original or its copy `base.hash.ext` with the first
      eight hex digits of the file's digest; the copy is used exactly when
      the reference is local, the file exists and the copy can be written,
      and only then is a file written, holding the original's contents. */
  lemma RenameOneFacts(css: string, files: map<string, string>, locked: set<string>, digest: string -> Digest)
    ensures |RenameOne(css, files, locked, digest).names| == 1
    ensures var r := RenameOne(css, files, locked, digest);
      var renamed := !HasPrefix(css, "http") && css in files && HashedName(css, digest(files[css])[..8]) !in locked;
      (renamed ==> r.names[0] == HashedName(css, digest(files[css])[..8]) &&
                   r.files == files[r.names[0] := files[css]]) &&
      (!renamed ==> r.names[0] == css && r.files == files)
  {
  }

  /** As many names as stylesheets, in order; remote ones unchanged, each
      local one either unchanged or an eight-digit hashed name of itself. */
  lemma {:induction false} RenameAllFacts(css: seq<string>, files: map<string, string>, locked: set<string>,
                                          digest: string -> Digest)
    ensures var r := RenameAll(css, files, locked, digest);
      |r.names| == |css| &&
      forall k :: 0 <= k < |css| ==>
        (HasPrefix(css[k], "http") ==> r.names[k] == css[k]) &&
        (r.names[k] == css[k] || exists h :: |h| == 8 && r.names[k] == HashedName(css[k], h))
  {
    if css != [] {
      var init := css[..|css| - 1];
      RenameAllFacts(init, files, locked, digest);
      var r := RenameAll(init, files, locked, digest);
      RenameOneFacts(css[|css| - 1], r.files, locked, digest);
      var r' := RenameAll(css, files, locked, digest);
      forall k | 0 <= k < |css|
        ensures (HasPrefix(css[k], "http") ==> r'.names[k] == css[k]) &&
          (r'.names[k] == css[k] || exists h :: |h| == 8 && r'.names[k] == HashedName(css[k], h))
      {
        if k < |init| {
          assert r'.names[k] == r.names[k] && css[k] == init[k];
        } else if r'.names[k] != css[k] {
          var f := r.files[css[k]];
          assert r'.names[k] == HashedName(css[k], digest(f)[..8]);
        }
      }
    }
  }

  /** The production loop of `build`: each stylesheet in turn, copying local
      ones to their hashed names on `disk`. In `main.go` the list is the
      configured `css` list itself, not the references left after
      inlining, so its result replaces the remote-only list. */
  method ProductionRefs(disk: Disk, css: seq<string>, digest: string -> Digest) returns (hashed: seq<string>)
    modifies disk`files
    ensures Renamed(hashed, disk.files) == RenameAll(css, old(disk.files), disk.locked, digest)
  {
    hashed := [];
    var i := 0;
    while i < |css|
      invariant 0 <= i <= |css|
      invariant Renamed(hashed, disk.files) == RenameAll(css[..i], old(disk.files), disk.locked, digest)
    {
      assert css[..i + 1][..i] == css[..i];
      var name := Rename(disk, css[i], digest);
      hashed := hashed + [name];
      i := i + 1;
    }
    assert css[..i] == css;
  }

  /** One round of the production loop. */
  method Rename(disk: Disk, css: string, digest: string -> Digest) returns (name: string)
    modifies disk`files
    ensures Renamed([name], disk.files) == RenameOne(css, old(disk.files), disk.locked, digest)
  {
    if HasPrefix(css, "http") || css !in disk.files {
      return css;
    }
    var data := disk.files[css];
    var copy := HashedName(css, digest(data)[..8]);
    var ok := disk.Write(copy, data);
    name := if ok then copy else css;
  }
}
