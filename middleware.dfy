/**
 * The page middleware: the route matcher, the `authorized` callback that
 * sends a tokenless request to the sign-in page, and the role redirects
 * between the admin and commerce areas.
 */
module Middleware {
  import opened Schema

  /** What the middleware does with a request. */
  datatype Decision = Next | Redirect(target: string) | ToLogin

  const AdminArea: string := "/admin"
  const CommerceArea: string := "/comercio"

  /** `config.matcher`: '/', '/admin/:path*' and '/comercio/:path*'. */
  predicate Matched(pathname: string) {
    || pathname == "/"
    || pathname == AdminArea || AdminArea + "/" <= pathname
    || pathname == CommerceArea || CommerceArea + "/" <= pathname
  }

  /** The `authorized` callback: a request with any token is authorized. */
  predicate Authorized(token: Option<Role>) {
    token.Some?
  }

  /** The middleware function itself, on the pathname and the token's role; `<=` is the prefix test startsWith. */
  function Route(pathname: string, token: Option<Role>): (d: Decision)
    ensures d.Next? || d == Redirect(AdminArea) || d == Redirect(CommerceArea)
  {
    if pathname == "/" && token == Some(ADMIN) then Redirect(AdminArea)
    else if pathname == "/" && token == Some(COMERCIO) then Redirect(CommerceArea)
    else if AdminArea <= pathname && token != Some(ADMIN) then Redirect(CommerceArea)
    else if CommerceArea <= pathname && token != Some(COMERCIO) then Redirect(AdminArea)
    else Next
  }

  /** A request as the framework runs it: outside the matcher untouched, unauthorized to sign-in, else the middleware. */
  function Handle(pathname: string, token: Option<Role>): (d: Decision)
    ensures !Matched(pathname) ==> d.Next?
    ensures Matched(pathname) && token.None? ==> d.ToLogin?
    ensures d.Redirect? ==> d.target == AdminArea || d.target == CommerceArea
  {
    if !Matched(pathname) then Next
    else if !Authorized(token) then ToLogin
    else Route(pathname, token)
  }

  lemma RootRedirectsByRole()
    ensures Handle("/", Some(ADMIN)) == Redirect(AdminArea)
    ensures Handle("/", Some(COMERCIO)) == Redirect(CommerceArea)
  {
  }

  lemma AreaPrefixesDisjoint(pathname: string)
    ensures AdminArea <= pathname ==> !(CommerceArea <= pathname)
  {
    if AdminArea <= pathname {
      assert pathname[1] == AdminArea[1] == 'a';
    }
  }

  /** A token holder in the wrong area is sent to its own area; in its own area it passes. */
  lemma AreaRedirects(pathname: string, role: Role)
    requires Matched(pathname) && pathname != "/"
    ensures AdminArea <= pathname ==> Handle(pathname, Some(role)) == if role == ADMIN then Next else Redirect(CommerceArea)
    ensures CommerceArea <= pathname ==> Handle(pathname, Some(role)) == if role == COMERCIO then Next else Redirect(AdminArea)
  {
    AreaPrefixesDisjoint(pathname);
  }

  /** Every matched path is the root or lies in exactly one of the two areas. */
  lemma MatchedPathsHaveAnArea(pathname: string)
    requires Matched(pathname) && pathname != "/"
    ensures AdminArea <= pathname || CommerceArea <= pathname
  {
    if AdminArea + "/" <= pathname {
      assert pathname[..|AdminArea|] == (AdminArea + "/")[..|AdminArea|] == AdminArea;
    }
    if CommerceArea + "/" <= pathname {
      assert pathname[..|CommerceArea|] == (CommerceArea + "/")[..|CommerceArea|] == CommerceArea;
    }
  }

  /** A logged-in user following one redirect lands on a page the middleware lets through. */
  lemma OneRedirectSettles(pathname: string, role: Role)
    requires Handle(pathname, Some(role)).Redirect?
    ensures Handle(Handle(pathname, Some(role)).target, Some(role)).Next?
  {
    AreaPrefixesDisjoint(pathname);
    AreaPrefixesDisjoint(AdminArea);
    AreaPrefixesDisjoint(CommerceArea);
    if pathname != "/" {
      MatchedPathsHaveAnArea(pathname);
    }
  }
}
