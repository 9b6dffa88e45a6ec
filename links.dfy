/** The check of collected local links in `processContent`: a `#x` link must
    name an id of the page, any other link that is not `http`, `mailto:` or
    `tel:` must name an existing file. */
module Links {
  import opened Strings
  import opened Augment

  /** Links checked against the file system. */
  predicate FileLink(link: string) {
    !HasPrefix(link, "#") &&
    !HasPrefix(link, "http") && !HasPrefix(link, "mailto:") && !HasPrefix(link, "tel:")
  }

  /** The warning, if any, for one collected link. */
  function LinkWarning(env: Env, ids: set<string>, link: string): seq<Warning> {
    if HasPrefix(link, "#") then
      if link[1..] !in ids then [MissingId(link)] else []
    else if FileLink(link) && !env.fileExists(link) then [MissingLinkFile(link)]
    else []
  }

  /** The warnings for the collected links, in collection order. */
  function LinkWarnings(env: Env, ids: set<string>, links: seq<string>): seq<Warning> {
    if links == [] then []
    else LinkWarnings(env, ids, links[..|links| - 1]) + LinkWarning(env, ids, links[|links| - 1])
  }

  /** A collected `#x` link warns exactly when `x` is not an id of the page. */
  lemma {:induction false} MissingIdIff(env: Env, ids: set<string>, links: seq<string>, link: string)
    ensures MissingId(link) in LinkWarnings(env, ids, links) <==>
      link in links && HasPrefix(link, "#") && link[1..] !in ids
  {
    if links != [] {
      var k := |links| - 1;
      MissingIdIff(env, ids, links[..k], link);
      assert links == links[..k] + [links[k]];
    }
  }

  /** A collected file link warns exactly when the file does not exist. */
  lemma {:induction false} MissingFileIff(env: Env, ids: set<string>, links: seq<string>, link: string)
    ensures MissingLinkFile(link) in LinkWarnings(env, ids, links) <==>
      link in links && FileLink(link) && !env.fileExists(link)
  {
    if links != [] {
      var k := |links| - 1;
      MissingFileIff(env, ids, links[..k], link);
      assert links == links[..k] + [links[k]];
    }
  }
}
