/** The route gate that runs before every request: it classifies the request
    path as an auth page or a protected page and then redirects or lets the
    request through, depending on whether the session names a user. */
module Middleware {
  import opened Strings

  // =====================================================================
  // Route classification
  // =====================================================================

  /** The sign-in and sign-up pages. Plain prefix test, so "/loginx" counts. */
  predicate IsAuthRoute(pathname: string)
    ensures IsAuthRoute(pathname) ==> |pathname| >= 6 && pathname[0] == '/' && pathname[1] in "ls"
  {
    StartsWith(pathname, "/login") || StartsWith(pathname, "/signup")
  }

  /** The pages that need a signed-in user. Plain prefix test, so
      "/organizations" and "/orgfoo" count as well. */
  predicate IsProtectedRoute(pathname: string)
    ensures IsProtectedRoute(pathname) ==> |pathname| >= 4 && pathname[0] == '/' && pathname[1] in "dvoa"
  {
    StartsWith(pathname, "/dashboard") || StartsWith(pathname, "/volunteer")
    || StartsWith(pathname, "/org") || StartsWith(pathname, "/admin")
  }

  /** A prefix fixes the characters it covers. */
  lemma PrefixAt(s: string, prefix: string, i: nat)
    ensures StartsWith(s, prefix) && i < |prefix| ==> s[i] == prefix[i]
  {
    if StartsWith(s, prefix) && i < |prefix| {
      assert s[..|prefix|][i] == s[i];
    }
  }

  /** No path is both an auth page and a protected page: the second
      characters of the prefixes already differ. This is a property of the
      route table; the two redirect branches are kept apart by the session
      test as well. */
  lemma RoutesDisjoint(pathname: string)
    ensures !(IsAuthRoute(pathname) && IsProtectedRoute(pathname))
  {
    PrefixAt(pathname, "/login", 1);
    PrefixAt(pathname, "/signup", 1);
    PrefixAt(pathname, "/dashboard", 1);
    PrefixAt(pathname, "/volunteer", 1);
    PrefixAt(pathname, "/org", 1);
    PrefixAt(pathname, "/admin", 1);
  }

  /** Anything after a matching prefix keeps the classification: "/org"
      protects "/org" followed by any text at all. */
  lemma RouteClassExtends(pathname: string, rest: string)
    ensures IsAuthRoute(pathname) ==> IsAuthRoute(pathname + rest)
    ensures IsProtectedRoute(pathname) ==> IsProtectedRoute(pathname + rest)
  {
    StartsWithExtends(pathname, "/login", rest);
    StartsWithExtends(pathname, "/signup", rest);
    StartsWithExtends(pathname, "/dashboard", rest);
    StartsWithExtends(pathname, "/volunteer", rest);
    StartsWithExtends(pathname, "/org", rest);
    StartsWithExtends(pathname, "/admin", rest);
  }

  /** The prefix tests are taken literally. */
  lemma RouteExamples()
    ensures IsProtectedRoute("/organizations") && IsProtectedRoute("/orgfoo")
    ensures IsAuthRoute("/loginx") && IsAuthRoute("/signup/confirm")
    ensures !IsProtectedRoute("/opportunities") && !IsAuthRoute("/opportunities")
    ensures !IsProtectedRoute("/") && !IsAuthRoute("/")
    ensures !IsProtectedRoute("/Dashboard")
  {
    assert "/organizations"[..4] == "/org";
    assert "/orgfoo"[..4] == "/org";
    assert "/loginx"[..6] == "/login";
    assert "/signup/confirm"[..7] == "/signup";
    PrefixAt("/opportunities", "/org", 2);
    PrefixAt("/opportunities", "/dashboard", 1);
    PrefixAt("/opportunities", "/volunteer", 1);
    PrefixAt("/opportunities", "/admin", 1);
    PrefixAt("/opportunities", "/login", 1);
    PrefixAt("/opportunities", "/signup", 1);
    PrefixAt("/Dashboard", "/dashboard", 1);
    PrefixAt("/Dashboard", "/volunteer", 1);
    PrefixAt("/Dashboard", "/org", 1);
    PrefixAt("/Dashboard", "/admin", 1);
  }

  // =====================================================================
  // Decision
  // =====================================================================

  datatype Decision = RedirectToLogin | RedirectToDashboard | PassThrough

  /** The if-chain of the middleware: a visitor without a session is sent from
      a protected page to the sign-in page, a signed-in user is sent from an
      auth page to the dashboard, and everything else passes. */
  function Decide(pathname: string, authenticated: bool): (d: Decision)
    ensures d == RedirectToLogin <==> IsProtectedRoute(pathname) && !authenticated
    ensures d == RedirectToDashboard <==> IsAuthRoute(pathname) && authenticated
    ensures d == PassThrough <==> !(IsProtectedRoute(pathname) && !authenticated)
                                  && !(IsAuthRoute(pathname) && authenticated)
  {
    if IsProtectedRoute(pathname) && !authenticated then RedirectToLogin
    else if IsAuthRoute(pathname) && authenticated then RedirectToDashboard
    else PassThrough
  }

  /** A signed-in user is never sent to the sign-in page and a visitor is
      never sent to the dashboard. */
  lemma DecideRespectsSession(pathname: string)
    ensures Decide(pathname, true) != RedirectToLogin
    ensures Decide(pathname, false) != RedirectToDashboard
  {
  }

  // =====================================================================
  // Query parameters and the redirect URL
  // =====================================================================

  datatype Param = Param(key: string, value: string)

  /** The parts of the request URL that the middleware reads or rewrites:
      the path and the list of query parameters, in order. The origin and
      the fragment are copied unchanged by the clone and are not modelled. */
  datatype Url = Url(pathname: string, search: seq<Param>)

  /** The parameters whose name is not `key`, in their order. */
  function Without(params: seq<Param>, key: string): (r: seq<Param>)
    ensures forall k :: 0 <= k < |r| ==> r[k].key != key
    ensures |r| <= |params|
    decreases |params|
  {
    if params == [] then []
    else (if params[0].key == key then [] else [params[0]]) + Without(params[1..], key)
  }

  /** How many parameters are named `key`. */
  function Occurrences(params: seq<Param>, key: string): nat
    decreases |params|
  {
    if params == [] then 0
    else (if params[0].key == key then 1 else 0) + Occurrences(params[1..], key)
  }

  datatype Option<T> = None | Some(value: T)

  /** `searchParams.get(key)`: the value of the first parameter named `key`. */
  function Get(params: seq<Param>, key: string): (r: Option<string>)
    ensures r.None? <==> Occurrences(params, key) == 0
    decreases |params|
  {
    if params == [] then None
    else if params[0].key == key then Some(params[0].value)
    else Get(params[1..], key)
  }

  /** The position of the first parameter named `key`, or the length when there is none. */
  function FirstIndex(params: seq<Param>, key: string): (i: nat)
    ensures i <= |params|
    ensures forall j :: 0 <= j < i ==> params[j].key != key
    ensures i < |params| ==> params[i].key == key
    ensures i == |params| <==> Occurrences(params, key) == 0
    decreases |params|
  {
    if params == [] then 0
    else if params[0].key == key then 0
    else 1 + FirstIndex(params[1..], key)
  }

  /** `searchParams.set(key, value)` as the URL Standard defines it: if a
      parameter named `key` exists, the first one takes the new value and the
      others are removed; otherwise a new parameter is appended. */
  function Set(params: seq<Param>, key: string, value: string): (r: seq<Param>)
    ensures 1 <= |r| <= |params| + 1
    ensures Param(key, value) in r
    decreases |params|
  {
    if params == [] then [Param(key, value)]
    else if params[0].key == key then [Param(key, value)] + Without(params[1..], key)
    else [params[0]] + Set(params[1..], key, value)
  }

  /** Removing a name removes every parameter of that name. */
  lemma {:induction false} WithoutCount(params: seq<Param>, key: string)
    ensures Occurrences(Without(params, key), key) == 0
    decreases |params|
  {
    if params != [] {
      WithoutCount(params[1..], key);
      var head := if params[0].key == key then [] else [params[0]];
      assert Without(params, key) == head + Without(params[1..], key);
      if head != [] {
        var w := head + Without(params[1..], key);
        assert w[0].key != key && w[1..] == Without(params[1..], key);
        assert Occurrences(w, key) == Occurrences(w[1..], key);
      } else {
        assert Without(params, key) == Without(params[1..], key);
      }
    }
  }

  /** Removing a name twice is removing it once. */
  lemma {:induction false} WithoutIdempotent(params: seq<Param>, key: string)
    ensures Without(Without(params, key), key) == Without(params, key)
    decreases |params|
  {
    if params != [] {
      WithoutIdempotent(params[1..], key);
      var rest := Without(params[1..], key);
      if params[0].key != key {
        assert Without(params, key) == [params[0]] + rest;
        assert ([params[0]] + rest)[1..] == rest;
      } else {
        assert Without(params, key) == rest;
      }
    }
  }

  /** After `Set`, exactly one parameter carries the name, `Get` returns the
      new value, and the parameters with other names are kept in order. */
  lemma {:induction false} SetSpec(params: seq<Param>, key: string, value: string)
    ensures Occurrences(Set(params, key, value), key) == 1
    ensures Get(Set(params, key, value), key) == Some(value)
    ensures Without(Set(params, key, value), key) == Without(params, key)
    decreases |params|
  {
    var r := Set(params, key, value);
    if params == [] {
      assert r[1..] == [];
    } else if params[0].key == key {
      var rest := Without(params[1..], key);
      WithoutCount(params[1..], key);
      WithoutIdempotent(params[1..], key);
      assert r[1..] == rest;
    } else {
      SetSpec(params[1..], key, value);
      assert r[1..] == Set(params[1..], key, value);
    }
  }

  /** The new pair stands at position `i`, after the untouched parameters
      before it and before the later parameters of other names. */
  predicate PlacedAt(params: seq<Param>, key: string, value: string, r: seq<Param>, i: nat)
  {
    i <= |params| && i < |r| && r[..i] == params[..i] && r[i] == Param(key, value)
    && r[i + 1..] == (if i < |params| then Without(params[i + 1..], key) else [])
  }

  /** `Set` keeps every parameter before the first one named `key`, puts the
      new pair in its place (or last, when there is none) and keeps the later
      parameters of other names. */
  lemma {:induction false} SetPosition(params: seq<Param>, key: string, value: string)
    ensures PlacedAt(params, key, value, Set(params, key, value), FirstIndex(params, key))
    decreases |params|
  {
    if params == [] {
      assert Set(params, key, value)[1..] == [];
    } else if params[0].key == key {
      assert Set(params, key, value)[1..] == Without(params[1..], key);
    } else {
      SetPosition(params[1..], key, value);
      SetPositionStep(params, key, value);
    }
  }

  lemma SetPositionStep(params: seq<Param>, key: string, value: string)
    requires params != [] && params[0].key != key
    requires PlacedAt(params[1..], key, value, Set(params[1..], key, value), FirstIndex(params[1..], key))
    ensures PlacedAt(params, key, value, Set(params, key, value), FirstIndex(params, key))
  {
    var i, r := FirstIndex(params, key), Set(params, key, value);
    var tail := Set(params[1..], key, value);
    assert r == [params[0]] + tail;
    assert i == 1 + FirstIndex(params[1..], key);
    assert r[..i] == [params[0]] + tail[..i - 1];
    assert params[..i] == [params[0]] + params[1..][..i - 1];
    assert r[i + 1..] == tail[i..];
    if i < |params| {
      assert params[i + 1..] == params[1..][i..];
    }
  }

  /** Setting the same parameter twice is setting it once. */
  lemma SetIdempotent(params: seq<Param>, key: string, value: string)
    ensures Set(Set(params, key, value), key, value) == Set(params, key, value)
  {
    var r := Set(params, key, value);
    SetSpec(params, key, value);
    SetWhenSingle(r, key, value);
  }

  /** When the name already occurs exactly once, with that value, `Set` changes nothing. */
  lemma {:induction false} SetWhenSingle(params: seq<Param>, key: string, value: string)
    requires Occurrences(params, key) == 1 && Get(params, key) == Some(value)
    ensures Set(params, key, value) == params
    decreases |params|
  {
    if params != [] {
      if params[0].key == key {
        NoOccurrencesWithout(params[1..], key);
        assert params == [Param(key, value)] + params[1..];
      } else {
        SetWhenSingle(params[1..], key, value);
        assert params == [params[0]] + params[1..];
      }
    }
  }

  /** Removing a name that does not occur changes nothing. */
  lemma {:induction false} NoOccurrencesWithout(params: seq<Param>, key: string)
    requires Occurrences(params, key) == 0
    ensures Without(params, key) == params
    decreases |params|
  {
    if params != [] {
      NoOccurrencesWithout(params[1..], key);
      assert params == [params[0]] + params[1..];
    }
  }

  // =====================================================================
  // The response
  // =====================================================================

  datatype Response = Redirect(location: Url) | Next

  /** `middleware(request)` with the session lookup replaced by whether it
      found a user. The sign-in redirect keeps the query and records the
      requested path in `redirectTo`; the dashboard redirect keeps the query. */
  function Respond(request: Url, authenticated: bool): (r: Response)
    ensures r.Next? <==> Decide(request.pathname, authenticated) == PassThrough
    ensures r.Redirect? ==> r.location.pathname == "/login" || r.location.pathname == "/dashboard"
  {
    match Decide(request.pathname, authenticated)
    case RedirectToLogin =>
      Redirect(Url("/login", Set(request.search, "redirectTo", request.pathname)))
    case RedirectToDashboard =>
      Redirect(request.(pathname := "/dashboard"))
    case PassThrough =>
      Next
  }

  /** A visitor without a session who asks for a protected page is sent to
      "/login", with `redirectTo` naming the requested path once and every
      other query parameter kept in order. */
  lemma LoginRedirect(request: Url)
    requires IsProtectedRoute(request.pathname)
    ensures Respond(request, false).Redirect?
    ensures var loc := Respond(request, false).location;
            loc.pathname == "/login"
            && Get(loc.search, "redirectTo") == Some(request.pathname)
            && Occurrences(loc.search, "redirectTo") == 1
            && Without(loc.search, "redirectTo") == Without(request.search, "redirectTo")
  {
    SetSpec(request.search, "redirectTo", request.pathname);
  }

  /** A signed-in user who asks for an auth page is sent to "/dashboard"
      with the query unchanged. */
  lemma DashboardRedirect(request: Url)
    requires IsAuthRoute(request.pathname)
    ensures Respond(request, true) == Redirect(Url("/dashboard", request.search))
  {
  }

  /** Every other combination passes through. */
  lemma PassThroughOtherwise(request: Url, authenticated: bool)
    requires !(IsProtectedRoute(request.pathname) && !authenticated)
    requires !(IsAuthRoute(request.pathname) && authenticated)
    ensures Respond(request, authenticated) == Next
  {
  }

  /** The outcome depends on the path and the session alone: two requests
      with the same path get the same kind of response, and a pass-through
      or a dashboard redirect does not look at the query at all. */
  lemma OnlyPathMatters(a: Url, b: Url, authenticated: bool)
    requires a.pathname == b.pathname
    ensures Respond(a, authenticated).Next? == Respond(b, authenticated).Next?
    ensures Respond(a, authenticated).Redirect? ==>
              Respond(a, authenticated).location.pathname == Respond(b, authenticated).location.pathname
  {
  }

  /** Following a redirect never redirects again for the same session: the
      sign-in page is not protected and the dashboard is not an auth page. */
  lemma NoRedirectLoop(request: Url, authenticated: bool)
    requires Respond(request, authenticated).Redirect?
    ensures Respond(Respond(request, authenticated).location, authenticated) == Next
  {
    var loc := Respond(request, authenticated).location;
    if authenticated {
      assert loc.pathname == "/dashboard";
      PrefixAt("/dashboard", "/login", 1);
      PrefixAt("/dashboard", "/signup", 1);
    } else {
      assert loc.pathname == "/login";
      PrefixAt("/login", "/dashboard", 1);
      PrefixAt("/login", "/volunteer", 1);
      PrefixAt("/login", "/org", 1);
      PrefixAt("/login", "/admin", 1);
    }
  }
}
