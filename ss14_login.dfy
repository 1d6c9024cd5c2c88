/**
 * The credential check against the SS14 web login form (SS14Login in
 * classes/ss14login/ss14class.py).
 *
 * The HTTP session and the HTML parser are outside the model. What the login page GET gives
 * back is a `PageResponse`: its status, and the `__RequestVerificationToken` input if the page
 * has one (with its `value` attribute, which may be missing). What the credential POST gives
 * back is a `SubmitResponse`: its status and the URL the redirects end on. The object keeps a
 * ghost log of the requests it issues.
 */
module SS14Auth {
  import opened Wrappers

  /** The scheme of the site, with its ':'. */
  const SCHEME: string := "https:"
  const HOST: string := "central.spacestation14.io"
  const WEB_PATH: string := "/web/"
  /** The site's base, "https://central.spacestation14.io/web/". */
  const BASE_URL: string := SCHEME + "//" + HOST + WEB_PATH
  /** The relative reference joined to BASE_URL for the success test. */
  const LOGIN_PATH: string := "Identity/Account/Login"
  /** The login page, "https://central.spacestation14.io/web/Identity/Account/Login". */
  const LOGIN_URL: string := BASE_URL + LOGIN_PATH
  const TOKEN_FIELD: string := "__RequestVerificationToken"

  datatype PageResponse = PageResponse(status: int, tokenInput: Option<Option<string>>)

  datatype SubmitResponse = SubmitResponse(status: int, url: string)

  datatype Request = Get(url: string) | Post(url: string, form: seq<(string, Option<string>)>)

  /**
   * Why a login raises: the page GET or the POST did not answer 200 (both are
   * `requests.RequestException`), or the page has no token input (`SS14VerificationTokenError`).
   */
  datatype LoginError = PageStatus(status: int) | TokenNotFound | SubmitStatus(status: int)

  /** Python truthiness of the cached token: None and "" are false. */
  predicate Truthy(token: Option<string>) {
    token.Some? && token.value != ""
  }

  // ---------------------------------------------------------------------------
  // urljoin of Python's urllib.parse (after section 5.2 of RFC 3986), for the references used here

  predicate IsAlpha(c: char) {
    'a' <= c <= 'z' || 'A' <= c <= 'Z'
  }

  predicate IsSchemeChar(c: char) {
    IsAlpha(c) || '0' <= c <= '9' || c == '+' || c == '-' || c == '.'
  }

  /** The unreserved characters of section 2.3 of RFC 3986. */
  predicate IsUnreserved(c: char) {
    IsAlpha(c) || '0' <= c <= '9' || c == '-' || c == '.' || c == '_' || c == '~'
  }

  function SchemeCharsEnd(s: string, i: nat): (e: nat)
    requires i <= |s|
    ensures i <= e <= |s|
    ensures forall j :: i <= j < e ==> IsSchemeChar(s[j])
    ensures e < |s| ==> !IsSchemeChar(s[e])
    decreases |s| - i
  {
    if i == |s| || !IsSchemeChar(s[i]) then i else SchemeCharsEnd(s, i + 1)
  }

  /** The length of the leading `scheme ":"` of `s`, or 0 if it has none. */
  function SchemeLength(s: string): (n: nat)
    ensures n <= |s|
    ensures n > 0 ==> s[n - 1] == ':'
  {
    if |s| > 0 && IsAlpha(s[0]) then
      var e := SchemeCharsEnd(s, 1);
      if e < |s| && s[e] == ':' then e + 1 else 0
    else 0
  }

  /** The index of the last '/' of `s`, or -1. */
  function LastSlash(s: string): (k: int)
    ensures -1 <= k < |s|
    ensures k >= 0 ==> s[k] == '/'
    ensures forall j :: k < j < |s| ==> s[j] != '/'
  {
    if s == [] then -1
    else if s[|s| - 1] == '/' then |s| - 1
    else LastSlash(s[..|s| - 1])
  }

  /** A character that ends the authority: the path, the query or the fragment begins. */
  predicate EndsAuthority(c: char) {
    c == '/' || c == '?' || c == '#'
  }

  /** A character that ends the path: the query or the fragment begins. */
  predicate EndsPath(c: char) {
    c == '?' || c == '#'
  }

  /** The index of the first character of `s` that ends the authority, at or after `i`, or |s|. */
  function AuthorityEnd(s: string, i: nat): (k: nat)
    requires i <= |s|
    ensures i <= k <= |s|
    ensures k < |s| ==> EndsAuthority(s[k])
    ensures forall j :: i <= j < k ==> !EndsAuthority(s[j])
    decreases |s| - i
  {
    if i == |s| || EndsAuthority(s[i]) then i else AuthorityEnd(s, i + 1)
  }

  /** The index of the first character of `s` that ends the path, at or after `i`, or |s|. */
  function PathEndFrom(s: string, i: nat): (k: nat)
    requires i <= |s|
    ensures i <= k <= |s|
    ensures k < |s| ==> EndsPath(s[k])
    ensures forall j :: i <= j < k ==> !EndsPath(s[j])
    decreases |s| - i
  {
    if i == |s| || EndsPath(s[i]) then i else PathEndFrom(s, i + 1)
  }

  /** Where the path of `base` starts: after the scheme and, when there is a "//", the authority. */
  function PathStart(base: string): (n: nat)
    ensures SchemeLength(base) <= n <= |base|
  {
    var m := SchemeLength(base);
    if m + 2 <= |base| && base[m..m + 2] == "//" then AuthorityEnd(base, m + 2) else m
  }

  /** Where the path of `base` ends: at its query or fragment, if any. */
  function PathEnd(base: string): (e: nat)
    ensures PathStart(base) <= e <= |base|
  {
    PathEndFrom(base, PathStart(base))
  }

  /**
   * urljoin(base, ref): an absolute reference wins; a network-path reference keeps the
   * base's scheme; an absolute path replaces the base's path; a relative path replaces the
   * last segment of the base's path, and is put under "/" when that path is empty.
   */
  function UrlJoin(base: string, ref: string): string {
    if ref == "" then base
    else if SchemeLength(ref) > 0 then ref
    else if |ref| >= 2 && ref[..2] == "//" then base[..SchemeLength(base)] + ref
    else if ref[0] == '/' then base[..PathStart(base)] + ref
    else
      var path := base[PathStart(base)..PathEnd(base)];
      if path == "" && base != "" then base[..PathStart(base)] + "/" + ref
      else base[..PathStart(base)] + path[..LastSlash(path) + 1] + ref
  }

  /** Whether `s[i..k]` is a whole '/'-separated segment of `s`. */
  predicate SegmentAt(s: string, i: nat, k: nat) {
    && i <= k <= |s|
    && (i == 0 || s[i - 1] == '/')
    && (k == |s| || s[k] == '/')
    && (forall j :: i <= j < k ==> s[j] != '/')
  }

  /** No segment of `s` is "." or "..". */
  ghost predicate NoDotSegment(s: string) {
    forall i: nat, k: nat :: SegmentAt(s, i, k) ==> s[i..k] != "." && s[i..k] != ".."
  }

  /** No two '/' of `s` are adjacent, so no segment between two of them is empty. */
  predicate NoEmptySegment(s: string) {
    forall j :: 0 < j < |s| ==> s[j - 1] != '/' || s[j] != '/'
  }

  /** A path built of unreserved characters and '/', with no empty and no dot segment. */
  ghost predicate PlainPath(s: string) {
    && (forall j :: 0 <= j < |s| ==> IsUnreserved(s[j]) || s[j] == '/')
    && NoEmptySegment(s)
    && NoDotSegment(s)
  }

  lemma NoDotNoDotSegment(s: string)
    requires forall j :: 0 <= j < |s| ==> s[j] != '.'
    ensures NoDotSegment(s)
  {
    forall i: nat, k: nat | SegmentAt(s, i, k) ensures s[i..k] != "." && s[i..k] != ".." {
      if i < k {
        assert s[i..k][0] == s[i];
      }
    }
  }

  lemma NoColonNoScheme(s: string)
    requires forall j :: 0 <= j < |s| ==> s[j] != ':'
    ensures SchemeLength(s) == 0
  {
  }

  lemma SchemeLengthOf(scheme: string, rest: string)
    requires scheme == "" || scheme == "http:" || scheme == "https:"
    requires |rest| > 0 && rest[0] == '/'
    ensures SchemeLength(scheme + rest) == |scheme|
  {
    var s := scheme + rest;
    if scheme != "" {
      var e := |scheme| - 1;
      assert s[e] == ':' && !IsSchemeChar(s[e]);
      assert forall j :: 1 <= j < e ==> IsSchemeChar(s[j]);
      assert SchemeCharsEnd(s, 1) == e;
    }
  }

  lemma AuthorityEndAt(s: string, i: nat, k: nat)
    requires i <= k <= |s|
    requires k < |s| ==> EndsAuthority(s[k])
    requires forall j :: i <= j < k ==> !EndsAuthority(s[j])
    ensures AuthorityEnd(s, i) == k
  {
  }

  lemma PathEndAt(s: string, i: nat)
    requires i <= |s|
    requires forall j :: i <= j < |s| ==> !EndsPath(s[j])
    ensures PathEndFrom(s, i) == |s|
  {
  }

  /** The path of scheme + "//" + host + path is `path` when the host has no character that ends it and the path no '?' or '#'. */
  lemma PathOf(scheme: string, host: string, path: string)
    requires scheme == "" || scheme == "http:" || scheme == "https:"
    requires forall j :: 0 <= j < |host| ==> !EndsAuthority(host[j])
    requires |path| > 0 && path[0] == '/'
    requires forall j :: 0 <= j < |path| ==> !EndsPath(path[j])
    ensures var base := scheme + "//" + host + path;
      && PathStart(base) == |scheme| + 2 + |host|
      && PathEnd(base) == |base|
  {
    var pre := scheme + "//" + host;
    var base := pre + path;
    var m := |scheme|;
    var rest := "//" + host + path;
    assert base == scheme + rest;
    SchemeLengthOf(scheme, rest);
    assert SchemeLength(base) == m;
    assert base[m..m + 2] == "//";
    var n := |pre|;
    assert base[n] == '/';
    assert forall j :: m + 2 <= j < n ==> base[j] == host[j - m - 2];
    AuthorityEndAt(base, m + 2, n);
    assert forall j :: n <= j < |base| ==> base[j] == path[j - n];
    PathEndAt(base, n);
  }

  /** The model's merge appends a reference with no scheme and no leading '/' to a base whose path ends in '/'. */
  lemma ConcatJoin(scheme: string, host: string, path: string, ref: string)
    requires scheme == "" || scheme == "http:" || scheme == "https:"
    requires forall j :: 0 <= j < |host| ==> !EndsAuthority(host[j])
    requires |path| > 0 && path[0] == '/' && path[|path| - 1] == '/'
    requires forall j :: 0 <= j < |path| ==> !EndsPath(path[j])
    requires ref != "" && ref[0] != '/'
    requires forall j :: 0 <= j < |ref| ==> ref[j] != ':'
    ensures UrlJoin(scheme + "//" + host + path, ref) == scheme + "//" + host + path + ref
  {
    var pre := scheme + "//" + host;
    var base := pre + path;
    PathOf(scheme, host, path);
    assert base[..PathStart(base)] == pre;
    assert base[PathStart(base)..PathEnd(base)] == path;
    NoColonNoScheme(ref);
    assert !(|ref| >= 2 && ref[..2] == "//") by {
      if |ref| >= 2 { assert ref[..2][0] == ref[0]; }
    }
    assert LastSlash(path) == |path| - 1;
    assert path[..|path|] == path;
  }

  /**
   * Python's urljoin of a plain relative path against an http(s) base with a host and a
   * directory path, neither with an empty or a dot segment, is the concatenation.
   */
  lemma RelativeJoin(scheme: string, host: string, path: string, ref: string)
    requires scheme == "" || scheme == "http:" || scheme == "https:"
    requires host != "" && forall j :: 0 <= j < |host| ==> IsUnreserved(host[j]) || host[j] == ':'
    requires |path| > 0 && path[0] == '/' && path[|path| - 1] == '/' && PlainPath(path)
    requires ref != "" && ref[0] != '/' && PlainPath(ref)
    ensures UrlJoin(scheme + "//" + host + path, ref) == scheme + "//" + host + path + ref
  {
    ConcatJoin(scheme, host, path, ref);
  }

  /** A base that is only a scheme and a host has an empty path, at its end. */
  lemma EmptyPathOf(scheme: string, host: string)
    requires scheme == "" || scheme == "http:" || scheme == "https:"
    requires forall j :: 0 <= j < |host| ==> !EndsAuthority(host[j])
    ensures var base := scheme + "//" + host;
      PathStart(base) == |base| && PathEnd(base) == |base|
  {
    var base := scheme + "//" + host;
    var m := |scheme|;
    var rest := "//" + host;
    assert base == scheme + rest;
    SchemeLengthOf(scheme, rest);
    assert base[m..m + 2] == "//";
    assert forall j :: m + 2 <= j < |base| ==> base[j] == host[j - m - 2];
    AuthorityEndAt(base, m + 2, |base|);
    PathEndAt(base, |base|);
  }

  /** The model's merge puts a reference with no scheme and no leading '/' under "/" when the base has no path. */
  lemma RootJoin(scheme: string, host: string, ref: string)
    requires scheme == "" || scheme == "http:" || scheme == "https:"
    requires forall j :: 0 <= j < |host| ==> !EndsAuthority(host[j])
    requires ref != "" && ref[0] != '/'
    requires forall j :: 0 <= j < |ref| ==> ref[j] != ':'
    ensures UrlJoin(scheme + "//" + host, ref) == scheme + "//" + host + "/" + ref
  {
    var base := scheme + "//" + host;
    EmptyPathOf(scheme, host);
    assert base[..|base|] == base;
    assert base[|base|..|base|] == "";
    NoColonNoScheme(ref);
    assert !(|ref| >= 2 && ref[..2] == "//") by {
      if |ref| >= 2 { assert ref[..2][0] == ref[0]; }
    }
  }

  /** Python's urljoin of a plain relative path against a base that is only a scheme and a host puts it under "/". */
  lemma HostOnlyJoin(scheme: string, host: string, ref: string)
    requires scheme == "" || scheme == "http:" || scheme == "https:"
    requires host != "" && forall j :: 0 <= j < |host| ==> IsUnreserved(host[j]) || host[j] == ':'
    requires ref != "" && ref[0] != '/' && PlainPath(ref)
    ensures UrlJoin(scheme + "//" + host, ref) == scheme + "//" + host + "/" + ref
  {
    RootJoin(scheme, host, ref);
  }

  /** urljoin(BASE_URL, "Identity/Account/Login") is LOGIN_URL. */
  lemma LoginUrlIsJoin()
    ensures UrlJoin(BASE_URL, LOGIN_PATH) == LOGIN_URL
  {
    NoDotNoDotSegment(WEB_PATH);
    NoDotNoDotSegment(LOGIN_PATH);
    RelativeJoin(SCHEME, HOST, WEB_PATH, LOGIN_PATH);
  }

  lemma ConcatIs(a: string, b: string, c: string)
    requires |a| + |b| == |c|
    requires forall j :: 0 <= j < |a| ==> a[j] == c[j]
    requires forall j :: 0 <= j < |b| ==> b[j] == c[|a| + j]
    ensures a + b == c
  {
  }

  lemma SiteSpelled()
    ensures SCHEME + "//" + HOST == "https://central.spacestation14.io"
  {
    ConcatIs(SCHEME, "//", "https://");
    ConcatIs("https://", HOST, "https://central.spacestation14.io");
  }

  lemma BaseSpelled()
    ensures BASE_URL == "https://central.spacestation14.io/web/"
  {
    SiteSpelled();
    ConcatIs("https://central.spacestation14.io", WEB_PATH, "https://central.spacestation14.io/web/");
  }

  /** The constants built from their parts spell the class's two literals. */
  lemma ConstantsSpelled()
    ensures BASE_URL == "https://central.spacestation14.io/web/"
    ensures LOGIN_URL == "https://central.spacestation14.io/web/Identity/Account/Login"
  {
    BaseSpelled();
    ConcatIs("https://central.spacestation14.io/web/", LOGIN_PATH,
      "https://central.spacestation14.io/web/Identity/Account/Login");
  }

  // ---------------------------------------------------------------------------
  // One call of `login`, as a function of the cached token and the two responses

  /** The form data of the credential POST. */
  function Payload(user: string, password: string, token: Option<string>): seq<(string, Option<string>)> {
    [("Input.EmailOrUsername", Some(user)),
     ("Input.Password", Some(password)),
     (TOKEN_FIELD, token),
     ("Input.RememberMe", Some("false"))]
  }

  /** What a login leaves behind: the cached token, the requests it issued, and its result. */
  datatype Attempt = Attempt(token: Option<string>, issued: seq<Request>, result: Result<bool, LoginError>)

  function LoginSpec(token: Option<string>, user: string, password: string,
                     page: PageResponse, reply: SubmitResponse): Attempt
  {
    var fetch := if Truthy(token) then [] else [Get(LOGIN_URL)];
    if !Truthy(token) && page.status != 200 then Attempt(token, fetch, Err(PageStatus(page.status)))
    else if !Truthy(token) && page.tokenInput.None? then Attempt(token, fetch, Err(TokenNotFound))
    else
      var t := if Truthy(token) then token else page.tokenInput.value;
      var issued := fetch + [Post(LOGIN_URL, Payload(user, password, t))];
      if reply.status != 200 then Attempt(t, issued, Err(SubmitStatus(reply.status)))
      else Attempt(t, issued, Ok(UrlJoin(BASE_URL, LOGIN_PATH) != reply.url))
  }

  function GetCount(rs: seq<Request>): nat {
    if rs == [] then 0 else GetCount(rs[..|rs| - 1]) + if rs[|rs| - 1].Get? then 1 else 0
  }

  function PostCount(rs: seq<Request>): nat {
    if rs == [] then 0 else PostCount(rs[..|rs| - 1]) + if rs[|rs| - 1].Post? then 1 else 0
  }

  lemma {:induction false} CountsAppend(a: seq<Request>, b: seq<Request>)
    ensures GetCount(a + b) == GetCount(a) + GetCount(b)
    ensures PostCount(a + b) == PostCount(a) + PostCount(b)
  {
    if b == [] {
      assert a + b == a;
    } else {
      assert (a + b)[..|a + b| - 1] == a + b[..|b| - 1];
      assert (a + b)[|a + b| - 1] == b[|b| - 1];
      CountsAppend(a, b[..|b| - 1]);
    }
  }

  lemma CountsOfOne(r: Request)
    ensures GetCount([r]) == (if r.Get? then 1 else 0)
    ensures PostCount([r]) == (if r.Post? then 1 else 0)
  {
    assert [r][..0] == [];
  }

  /** A login fetches the page, once and first, exactly when no truthy token is cached. */
  lemma LoginFetchesOnlyWithoutToken(token: Option<string>, user: string, password: string,
                                     page: PageResponse, reply: SubmitResponse)
    ensures var a := LoginSpec(token, user, password, page, reply);
      && GetCount(a.issued) == (if Truthy(token) then 0 else 1)
      && (!Truthy(token) <==> |a.issued| > 0 && a.issued[0] == Get(LOGIN_URL))
  {
    var a := LoginSpec(token, user, password, page, reply);
    var get := Get(LOGIN_URL);
    CountsOfOne(get);
    if Truthy(token) {
      var post := a.issued[0];
      assert a.issued == [post] && post.Post?;
      CountsOfOne(post);
    } else if page.status != 200 || page.tokenInput.None? {
      assert a.issued == [get];
    } else {
      var post := a.issued[1];
      assert a.issued == [get] + [post] && post.Post?;
      CountsAppend([get], [post]);
      CountsOfOne(post);
    }
  }

  /** A page that does not answer 200 raises, leaves the token as it was and posts nothing. */
  lemma LoginPageFailure(token: Option<string>, user: string, password: string,
                         page: PageResponse, reply: SubmitResponse)
    requires !Truthy(token) && page.status != 200
    ensures var a := LoginSpec(token, user, password, page, reply);
      a.result == Err(PageStatus(page.status)) && a.token == token && PostCount(a.issued) == 0
  {
  }

  /** A page without the token input raises, leaves the token as it was and posts nothing. */
  lemma LoginTokenMissing(token: Option<string>, user: string, password: string,
                          page: PageResponse, reply: SubmitResponse)
    requires !Truthy(token) && page.status == 200 && page.tokenInput.None?
    ensures var a := LoginSpec(token, user, password, page, reply);
      a.result == Err(TokenNotFound) && a.token == token && PostCount(a.issued) == 0
  {
  }

  /**
   * Once the token is known the login posts exactly once, last, to LOGIN_URL with the four
   * fields; the token cached is the fetched input's value, unless a truthy one was cached already.
   */
  lemma LoginPosts(token: Option<string>, user: string, password: string,
                   page: PageResponse, reply: SubmitResponse)
    requires Truthy(token) || (page.status == 200 && page.tokenInput.Some?)
    ensures var a := LoginSpec(token, user, password, page, reply);
      && a.token == (if Truthy(token) then token else page.tokenInput.value)
      && PostCount(a.issued) == 1
      && a.issued[|a.issued| - 1] == Post(LOGIN_URL,
           [("Input.EmailOrUsername", Some(user)), ("Input.Password", Some(password)),
            ("__RequestVerificationToken", a.token), ("Input.RememberMe", Some("false"))])
  {
    var a := LoginSpec(token, user, password, page, reply);
    CountsAppend(if Truthy(token) then [] else [Get(LOGIN_URL)], [a.issued[|a.issued| - 1]]);
  }

  /**
   * The login answers exactly when the token is known and the POST answers 200, and then it
   * answers true iff the redirects ended away from the login page.
   */
  lemma LoginResultSpec(token: Option<string>, user: string, password: string,
                        page: PageResponse, reply: SubmitResponse)
    ensures var a := LoginSpec(token, user, password, page, reply);
      && (a.result.Ok? <==> (Truthy(token) || (page.status == 200 && page.tokenInput.Some?)) && reply.status == 200)
      && ((Truthy(token) || (page.status == 200 && page.tokenInput.Some?)) && reply.status != 200 ==>
            a.result == Err(SubmitStatus(reply.status)))
      && (a.result.Ok? ==> (a.result.value <==> reply.url != LOGIN_URL))
  {
    LoginUrlIsJoin();
  }

  /**
   * On one object, a first login whose fetch cached a truthy token and a second login issue
   * one GET between them, whatever the POSTs answered.
   */
  lemma CachedTokenFetchedOnce(token: Option<string>, page1: PageResponse, reply1: SubmitResponse,
                               page2: PageResponse, reply2: SubmitResponse,
                               user1: string, password1: string, user2: string, password2: string)
    requires !Truthy(token)
    requires page1.status == 200 && page1.tokenInput.Some? && Truthy(page1.tokenInput.value)
    ensures var a1 := LoginSpec(token, user1, password1, page1, reply1);
      var a2 := LoginSpec(a1.token, user2, password2, page2, reply2);
      GetCount(a1.issued + a2.issued) == 1
  {
    var a1 := LoginSpec(token, user1, password1, page1, reply1);
    LoginFetchesOnlyWithoutToken(a1.token, user2, password2, page2, reply2);
    CountsAppend(a1.issued, LoginSpec(a1.token, user2, password2, page2, reply2).issued);
  }

  /** Logins on two fresh objects issue two GETs between them. */
  lemma FreshObjectsFetchEach(page1: PageResponse, reply1: SubmitResponse,
                              page2: PageResponse, reply2: SubmitResponse,
                              user1: string, password1: string, user2: string, password2: string)
    ensures var a1 := LoginSpec(None, user1, password1, page1, reply1);
      var a2 := LoginSpec(None, user2, password2, page2, reply2);
      GetCount(a1.issued + a2.issued) == 2
  {
    var a1 := LoginSpec(None, user1, password1, page1, reply1);
    var a2 := LoginSpec(None, user2, password2, page2, reply2);
    LoginFetchesOnlyWithoutToken(None, user1, password1, page1, reply1);
    LoginFetchesOnlyWithoutToken(None, user2, password2, page2, reply2);
    CountsAppend(a1.issued, a2.issued);
  }

  // ---------------------------------------------------------------------------
  // The object

  class SS14Login {
    var verificationToken: Option<string>
    ghost var requests: seq<Request>

    /** A fresh object has no cached token and has issued no request. */
    constructor ()
      ensures verificationToken == None && requests == []
    {
      verificationToken := None;
      requests := [];
    }

    /** `_get_verification_token`: GET the login page and cache the token input's value. */
    method GetVerificationToken(page: PageResponse) returns (r: Result<(), LoginError>)
      modifies this
      ensures requests == old(requests) + [Get(LOGIN_URL)]
      ensures page.status != 200 ==> r == Err(PageStatus(page.status)) && verificationToken == old(verificationToken)
      ensures page.status == 200 && page.tokenInput.None? ==>
        r == Err(TokenNotFound) && verificationToken == old(verificationToken)
      ensures page.status == 200 && page.tokenInput.Some? ==>
        r == Ok(()) && verificationToken == page.tokenInput.value
    {
      requests := requests + [Get(LOGIN_URL)];
      if page.status != 200 {
        return Err(PageStatus(page.status));
      }
      if page.tokenInput.Some? {
        verificationToken := page.tokenInput.value;
        return Ok(());
      }
      return Err(TokenNotFound);
    }

    /** `login`: fetch the token if none is cached, post the credentials, compare the final URL. */
    method Login(user: string, password: string, page: PageResponse, reply: SubmitResponse)
      returns (r: Result<bool, LoginError>)
      modifies this
      ensures var a := LoginSpec(old(verificationToken), user, password, page, reply);
        r == a.result && verificationToken == a.token && requests == old(requests) + a.issued
    {
      if !Truthy(verificationToken) {
        var fetched := GetVerificationToken(page);
        if fetched.Err? {
          return Err(fetched.error);
        }
      }
      var payload := Payload(user, password, verificationToken);
      requests := requests + [Post(LOGIN_URL, payload)];
      if reply.status != 200 {
        return Err(SubmitStatus(reply.status));
      }
      return Ok(UrlJoin(BASE_URL, LOGIN_PATH) != reply.url);
    }
  }
}
