/** Rewriting requested paths before they reach code-server: a request for
    the landing page gets the user name and the one-time password appended as
    query parameters, so the editor opens already signed in; every other path
    is passed through unchanged. */
module UrlMapper {
  import opened Results
  import Query

  const LandingPage := "/index.html"

  /** The two request paths that are rewritten. */
  predicate IsLandingRequest(path: string) {
    path == "/" || path == LandingPage
  }

  /** Reading the process-wide password before setup assigned it (Python's
      NameError on the unbound global). */
  datatype MapError = PasswordUnset

  /** The three query parameters, in the order they are sent. */
  function QueryParams(user: string, password: string): seq<string> {
    ["username=" + user, "password=" + password, "sharing=true"]
  }

  /** "?" followed by the parameters joined with '&'. */
  function UrlParams(user: string, password: string): (r: string)
    ensures |r| > 0 && r[0] == '?'
    ensures r == "?username=" + user + "&password=" + password + "&sharing=true"
  {
    var ps := QueryParams(user, password);
    assert Query.JoinWith('&', ps[2..]) == "sharing=true";
    assert Query.JoinWith('&', ps[1..]) == ps[1] + "&" + "sharing=true";
    assert Query.JoinWith('&', ps) == ps[0] + "&" + (ps[1] + "&" + "sharing=true");
    "?" + Query.JoinWith('&', ps)
  }

  /** Splitting the query on '&' gives back exactly the three parameters, in
      order, provided neither the user name nor the password contains '&'. */
  lemma UrlParamsSplit(user: string, password: string)
    requires '&' !in user && '&' !in password
    ensures Query.Split(UrlParams(user, password)[1..], '&') == QueryParams(user, password)
  {
    var ps := QueryParams(user, password);
    assert UrlParams(user, password)[1..] == Query.JoinWith('&', ps);
    assert '&' !in ps[0] by {
      assert ps[0] == "username=" + user;
    }
    assert '&' !in ps[1] by {
      assert ps[1] == "password=" + password;
    }
    Query.SplitJoin('&', ps);
  }

  /** The path the backend serves for `path`, given the invoking user's name and
      the process-wide password (None while it has not been generated). */
  function MapPath(path: string, user: string, password: Option<string>): (r: Result<string, MapError>)
    ensures r.Failure? <==> IsLandingRequest(path) && password.None?
    ensures !IsLandingRequest(path) ==> r == Success(path)
    ensures IsLandingRequest(path) && password.Some? ==>
              r == Success(LandingPage + UrlParams(user, password.value))
    ensures r.Success? ==> !IsLandingRequest(r.value)
  {
    if IsLandingRequest(path) then
      match password
      case Some(pw) =>
        var rewritten := LandingPage + UrlParams(user, pw);
        assert |rewritten| > |LandingPage|;
        Success(rewritten)
      case None => Failure(PasswordUnset)
    else
      Success(path)
  }

  /** Mapping is idempotent, and a mapped path is left alone whatever user
      name or password a second mapping is given. */
  lemma MapPathIdempotent(path: string, user: string, password: Option<string>,
                          user': string, password': Option<string>)
    requires MapPath(path, user, password).Success?
    ensures MapPath(MapPath(path, user, password).value, user', password') == MapPath(path, user, password)
  {
  }

  /** A rewritten landing request is "/index.html?" followed by the three
      parameters, and a reader splitting the query on '&' gets them back in
      order (username, password, sharing=true), provided neither the user name
      nor the password contains '&'. */
  lemma LandingRequestQuery(path: string, user: string, password: string)
    requires IsLandingRequest(path) && '&' !in user && '&' !in password
    ensures var r := MapPath(path, user, Some(password)).value;
            && r[..|LandingPage| + 1] == LandingPage + "?"
            && Query.Split(r[|LandingPage| + 1..], '&')
               == ["username=" + user, "password=" + password, "sharing=true"]
  {
    var q := UrlParams(user, password);
    var r := LandingPage + q;
    assert MapPath(path, user, Some(password)).value == r;
    UrlParamsSplit(user, password);
    assert r[..|LandingPage| + 1] == LandingPage + [q[0]];
    assert r[|LandingPage| + 1..] == q[1..];
  }
}
