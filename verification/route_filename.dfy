/** The rule that turns an application's route into the name of the file
    its document is written to (`FileOutputSubcommand.filename_from_route`),
    together with an inverse used to state which routes the rule can tell apart. */
module RouteFilename {

  import opened Outcomes

  /** The route of the root application, and the base name it is given. */
  const IndexRoute: string := "/"
  const IndexBase: string := "index"

  /** The text `"%s" % extension` produces. The base class leaves its
      `extension` attribute at `None`, which formats as the word "None". */
  function ExtensionText(extension: Option<string>): string
  {
    match extension
    case Some(e) => e
    case None => "None"
  }

  /** The base name of the output file: "index" for the root route, and
      otherwise the route with its first character removed, whatever that
      character is (a Python slice `route[1:]`, which is empty for an empty route). */
  function BaseFromRoute(route: string): string
  {
    if route == IndexRoute then IndexBase
    else if route == [] then []
    else route[1..]
  }

  /** The root route's base is "index"; any other route's base is what is
      left after its first character, so that character and the base
      together give back the route. */
  lemma BaseDropsFirstCharacter(route: string)
    ensures route == IndexRoute ==> BaseFromRoute(route) == IndexBase
    ensures route != IndexRoute && route != [] ==> [route[0]] + BaseFromRoute(route) == route
    ensures route != IndexRoute ==> |BaseFromRoute(route)| == if route == [] then 0 else |route| - 1
  {
    if route != IndexRoute && route != [] {
      assert [route[0]] + route[1..] == route;
    }
  }

  /** `filename` is some base name followed by "." and the extension text. */
  predicate HasExtension(filename: string, ext: string)
  {
    |filename| > |ext| && filename[|filename| - |ext| - 1..] == "." + ext
  }

  /** The output filename for `route`: its base name, a dot, and the extension. */
  function FilenameFromRoute(route: string, ext: string): string
  {
    BaseFromRoute(route) + "." + ext
  }

  /** Every filename ends with "." and the extension, after exactly the base
      name: its length is the base's, plus one, plus the extension's. */
  lemma FilenameShape(route: string, ext: string)
    ensures HasExtension(FilenameFromRoute(route, ext), ext)
    ensures |FilenameFromRoute(route, ext)| == |BaseFromRoute(route)| + 1 + |ext|
    ensures FilenameFromRoute(route, ext)[..|BaseFromRoute(route)|] == BaseFromRoute(route)
  {
    var filename := FilenameFromRoute(route, ext);
    assert filename[|filename| - |ext| - 1..] == "." + ext;
  }

  /** The slash-prefixed route a filename would have come from: the inverse
      of `FilenameFromRoute` on routes that start with "/" (other than "/" itself). */
  function RouteFromFilename(filename: string, ext: string): (route: Option<string>)
    ensures route.Some? <==> HasExtension(filename, ext)
    ensures route.Some? ==> |route.value| > 0 && route.value[0] == '/'
  {
    if HasExtension(filename, ext) then Some("/" + filename[..|filename| - |ext| - 1]) else None
  }

  /** Every route that starts with "/", except "/" itself, is recovered from
      its filename: the rule strips exactly that one slash. */
  lemma SlashRouteRoundTrip(route: string, ext: string)
    requires |route| > 0 && route[0] == '/' && route != IndexRoute
    ensures RouteFromFilename(FilenameFromRoute(route, ext), ext) == Some(route)
  {
    var filename := FilenameFromRoute(route, ext);
    var base := BaseFromRoute(route);
    assert filename[..|filename| - |ext| - 1] == base;
    assert "/" + base == route;
  }

  /** The root route comes back as "/index": the two are indistinguishable by filename. */
  lemma IndexRoundTrip(ext: string)
    ensures RouteFromFilename(FilenameFromRoute(IndexRoute, ext), ext) == Some("/index")
  {
    var filename := FilenameFromRoute(IndexRoute, ext);
    assert filename[..|filename| - |ext| - 1] == IndexBase;
    assert "/" + IndexBase == "/index";
  }

  /** Two routes that both start with "/" share an output filename exactly
      when they are equal or are "/" and "/index". */
  lemma {:induction false} SlashRoutesCollide(r1: string, r2: string, ext: string)
    requires |r1| > 0 && r1[0] == '/'
    requires |r2| > 0 && r2[0] == '/'
    ensures FilenameFromRoute(r1, ext) == FilenameFromRoute(r2, ext)
            <==> r1 == r2 || (r1 == IndexRoute && r2 == "/index") || (r1 == "/index" && r2 == IndexRoute)
  {
    var f1, f2 := FilenameFromRoute(r1, ext), FilenameFromRoute(r2, ext);
    if r1 == IndexRoute {
      IndexRoundTrip(ext);
    } else {
      SlashRouteRoundTrip(r1, ext);
    }
    if r2 == IndexRoute {
      IndexRoundTrip(ext);
    } else {
      SlashRouteRoundTrip(r2, ext);
    }
    if r1 == "/index" && r2 == IndexRoute {
      assert BaseFromRoute(r1) == IndexBase;
    } else if r1 == IndexRoute && r2 == "/index" {
      assert BaseFromRoute(r2) == IndexBase;
    }
  }

  /** The first character is dropped without being looked at: two routes
      that differ only there (and are not "/") share a filename, so "foo"
      and "/oo" both give "oo.<ext>". */
  lemma FirstCharacterIgnored(c1: char, c2: char, rest: string, ext: string)
    requires [c1] + rest != IndexRoute && [c2] + rest != IndexRoute
    ensures FilenameFromRoute([c1] + rest, ext) == FilenameFromRoute([c2] + rest, ext)
    ensures FilenameFromRoute([c1] + rest, ext) == rest + "." + ext
  {
    assert ([c1] + rest)[1..] == rest;
    assert ([c2] + rest)[1..] == rest;
  }

  /** Worked outcomes of the rule, including the inner slash that is kept
      and the unguarded cases of a route without a leading slash. */
  lemma FilenameExamples()
    ensures FilenameFromRoute("/", "html") == "index.html"
    ensures FilenameFromRoute("/foo", "html") == "foo.html"
    ensures FilenameFromRoute("/foo/bar", "json") == "foo/bar.json"
    ensures FilenameFromRoute("foo", "ext") == "oo.ext"
    ensures FilenameFromRoute("", "ext") == ".ext"
    ensures FilenameFromRoute("/", ExtensionText(None)) == "index.None"
  {
    assert BaseFromRoute("/foo") == "foo";
    assert BaseFromRoute("/foo/bar") == "foo/bar";
    assert BaseFromRoute("foo") == "oo";
  }
}
