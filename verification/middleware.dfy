/** `middleware.ts`: the request gate. For every path the matcher selects,
    a visitor without a session is sent to `/login` and a signed-in user is
    kept away from it. Whether a user is present comes from the session
    lookup, which is outside this model, as a boolean. */
module Middleware {

  datatype Outcome = Pass | Redirect(to: string)

  const LoginPath: string := "/login"
  const HomePath: string := "/"

  /** The redirect decision (cases 1 and 2, otherwise pass). */
  function Decide(hasUser: bool, pathname: string): (o: Outcome)
    ensures o == Redirect(LoginPath) <==> !hasUser && pathname != LoginPath
    ensures o == Redirect(HomePath) <==> hasUser && pathname == LoginPath
    ensures o == Pass <==> (hasUser != (pathname == LoginPath))
  {
    if !hasUser && pathname != LoginPath then Redirect(LoginPath)
    else if hasUser && pathname == LoginPath then Redirect(HomePath)
    else Pass
  }

  /** A redirect never points at the path requested. */
  lemma NoSelfLoop(hasUser: bool, pathname: string)
    ensures Decide(hasUser, pathname).Redirect? ==> Decide(hasUser, pathname).to != pathname
  {
  }

  /** Following a redirect with the same session is let through: the gate
      settles after one hop. */
  lemma OneHop(hasUser: bool, pathname: string)
    ensures var o := Decide(hasUser, pathname);
      o.Redirect? ==> Matches(o.to) && Gate(hasUser, o.to) == Pass
  {
    var o := Decide(hasUser, pathname);
    if o.Redirect? {
      MatchesPage(o.to);
    }
  }

  // ------------------------------------------------------------- matcher

  /** The characters the regular expression's `.` does not match. */
  predicate IsLineTerminator(c: char)
  {
    c == '\n' || c == '\r' || c == '\U{2028}' || c == '\U{2029}'
  }

  /** The negative look-ahead `(?!api|_next/static|_next/image|favicon.ico)`
      at the start of `s`; the `.` in `favicon.ico` is a wildcard. */
  predicate Excluded(s: string)
  {
    || "api" <= s
    || "_next/static" <= s
    || "_next/image" <= s
    || (|s| >= 11 && s[..7] == "favicon" && !IsLineTerminator(s[7]) && s[8..11] == "ico")
  }

  /** `config.matcher`, anchored on the whole pathname: a leading `/`, the
      look-ahead failing, then any text without line terminators. */
  predicate Matches(pathname: string)
  {
    && |pathname| >= 1 && pathname[0] == '/'
    && !Excluded(pathname[1..])
    && forall i :: 1 <= i < |pathname| ==> !IsLineTerminator(pathname[i])
  }

  /** What a request meets: the decision on matched paths, nothing on the
      others. */
  function Gate(hasUser: bool, pathname: string): (o: Outcome)
    ensures !Matches(pathname) ==> o == Pass
    ensures Matches(pathname) ==> o == Decide(hasUser, pathname)
  {
    if Matches(pathname) then Decide(hasUser, pathname) else Pass
  }

  /** A text that differs from `a` at a position both reach does not
      start with `a`. */
  lemma Differs(a: string, s: string, k: nat)
    requires k < |a| && k < |s| && a[k] != s[k]
    ensures !(a <= s)
  {
  }

  /** A path whose text after the `/` starts with none of `a`, `_` and `f`
      is gated unless it holds a line terminator. */
  lemma MatchesByFirst(pathname: string)
    requires |pathname| >= 2 && pathname[0] == '/' && pathname[1] !in "a_f"
    requires forall i :: 1 <= i < |pathname| ==> !IsLineTerminator(pathname[i])
    ensures Matches(pathname)
  {
    var s := pathname[1..];
    Differs("api", s, 0);
    Differs("_next/static", s, 0);
    Differs("_next/image", s, 0);
  }

  /** The login page and the home page go through the gate. */
  lemma MatchesPage(pathname: string)
    requires pathname == LoginPath || pathname == HomePath
    ensures Matches(pathname)
  {
    if pathname == LoginPath {
      MatchesByFirst(pathname);
    }
  }

  /** The exclusions are textual prefixes of what follows the first `/`,
      not whole segments: `/apiary` is skipped like `/api/x`, and
      `/favicon-ico` like `/favicon.ico`. */
  lemma SkippedExamples()
    ensures !Matches("/api/supporters") && !Matches("/apiary")
    ensures !Matches("/_next/static/chunk.js") && !Matches("/_next/image")
    ensures !Matches("/favicon.ico") && !Matches("/favicon-ico")
  {
    assert "api" <= "/apiary"[1..];
    assert "favicon" == "/favicon-ico"[1..][..7] && "ico" == "/favicon-ico"[1..][8..11];
    assert "favicon" == "/favicon.ico"[1..][..7] && "ico" == "/favicon.ico"[1..][8..11];
  }

  /** Pages, other `_next` paths and other favicon files are gated. */
  lemma GatedExamples()
    ensures Matches("/supporters") && Matches("/_next/data") && Matches("/favicon.png")
  {
    MatchesByFirst("/supporters");
    NextData();
    FaviconPng();
  }

  lemma NextData()
    ensures Matches("/_next/data")
  {
    var d := "/_next/data"[1..];
    Differs("api", d, 0);
    Differs("_next/static", d, 6);
    Differs("_next/image", d, 6);
  }

  lemma FaviconPng()
    ensures Matches("/favicon.png")
  {
    var f := "/favicon.png"[1..];
    Differs("api", f, 0);
    Differs("_next/static", f, 0);
    Differs("_next/image", f, 0);
    assert f[8..11] != "ico" by {
      assert f[8..11][0] == 'p';
    }
  }

  /** Without a session every gated page but the login page leads to the
      login page, which is let through. */
  lemma SignedOut(pathname: string)
    requires Matches(pathname)
    ensures Gate(false, pathname) == if pathname == LoginPath then Pass else Redirect(LoginPath)
  {
  }
}
