/**
 The navigation-highlight template tag of the application: given the template
 context's request (if any) and a url name or a path, it yields the CSS class
 "active" when the current page matches and the empty string otherwise.
 */
module NavActive {

  import opened Wrappers

  /** The part of a resolved route the tag reads: its url name, which Django leaves unset for unnamed routes. */
  datatype Resolver = Resolver(urlName: Option<string>)

  /** The part of an HTTP request the tag reads: the path and, when routing has run, the resolver match. */
  datatype Request = Request(path: string, resolverMatch: Option<Resolver>)

  /** The CSS class the tag emits for a match. */
  const ActiveClass: string := "active"

  /** Python's `s.startswith(prefix)`, one character at a time. */
  function StartsWith(s: string, prefix: string): (b: bool)
    ensures b <==> |prefix| <= |s| && s[..|prefix|] == prefix
  {
    if prefix == [] then true
    else s != [] && s[0] == prefix[0] && StartsWith(s[1..], prefix[1..])
  }

  /**
   The tag `active(context, name_or_path)`. A missing request yields "". An
   argument beginning with "/" is a path-prefix test on the request path; any
   other argument is compared with the url name of the resolver match. Every
   other case falls through to "". The argument is already a string, so
   `str()` is the identity and no branch can raise.
   */
  function Active(request: Option<Request>, nameOrPath: string): (r: string)
    ensures r == ActiveClass || r == ""
  {
    match request
    case None => ""
    case Some(req) =>
      if StartsWith(nameOrPath, "/") then
        if StartsWith(req.path, nameOrPath) then ActiveClass else ""
      else if req.resolverMatch.Some? && req.resolverMatch.value.urlName == Some(nameOrPath) then
        ActiveClass
      else
        ""
  }

  /** Whether the argument selects the path-prefix test. */
  predicate IsPathArgument(nameOrPath: string) {
    |nameOrPath| > 0 && nameOrPath[0] == '/'
  }

  lemma NoRequestIsInactive(nameOrPath: string)
    ensures Active(None, nameOrPath) == ""
  {
  }

  lemma PathArgumentActiveIffPrefix(req: Request, nameOrPath: string)
    requires IsPathArgument(nameOrPath)
    ensures Active(Some(req), nameOrPath) == ActiveClass
        <==> |nameOrPath| <= |req.path| && req.path[..|nameOrPath|] == nameOrPath
  {
  }

  lemma PathArgumentIgnoresResolver(path: string, r1: Option<Resolver>, r2: Option<Resolver>, nameOrPath: string)
    requires IsPathArgument(nameOrPath)
    ensures Active(Some(Request(path, r1)), nameOrPath) == Active(Some(Request(path, r2)), nameOrPath)
  {
  }

  lemma NameArgumentActiveIffUrlName(req: Request, nameOrPath: string)
    requires !IsPathArgument(nameOrPath)
    ensures Active(Some(req), nameOrPath) == ActiveClass
        <==> req.resolverMatch.Some? && req.resolverMatch.value.urlName == Some(nameOrPath)
  {
  }

  lemma NameArgumentIgnoresPath(p1: string, p2: string, resolver: Option<Resolver>, nameOrPath: string)
    requires !IsPathArgument(nameOrPath)
    ensures Active(Some(Request(p1, resolver)), nameOrPath) == Active(Some(Request(p2, resolver)), nameOrPath)
  {
  }

  lemma NameArgumentWithoutResolverIsInactive(path: string, nameOrPath: string)
    requires !IsPathArgument(nameOrPath)
    ensures Active(Some(Request(path, None)), nameOrPath) == ""
  {
  }

  /** The root argument "/" highlights exactly the requests whose path begins with "/". */
  lemma RootIsActiveForSlashPaths(req: Request)
    ensures Active(Some(req), "/") == ActiveClass <==> IsPathArgument(req.path)
  {
  }

  /** Shortening a matching path argument, as long as it still begins with "/", keeps it matching. */
  lemma PathPrefixOfActiveIsActive(req: Request, s: string, t: string)
    requires IsPathArgument(s) && Active(Some(req), s) == ActiveClass
    requires IsPathArgument(t) && |t| <= |s| && s[..|t|] == t
    ensures Active(Some(req), t) == ActiveClass
  {
  }
}
