/** The HTTP function's request helpers: header lookup, path normalisation, the boolean
    token parser, the user-id check and the method/path dispatch table. */
module Backend {
  import opened Common
  import opened Text

  /** `HttpError`: a status code and the detail sent back as JSON. */
  datatype HttpError = HttpError(statusCode: int, detail: string)

  const MissingUserId := HttpError(401, "Missing x-user-id header")
  const NotFound := HttpError(404, "Not found")

  /** `_headers`: the request's headers keyed by lower-cased name, in the order the
      request lists them, so a later header wins over an earlier one whose name
      differs only in case. */
  function Headers(raw: seq<(string, string)>): (h: map<string, string>)
    ensures forall k :: k in h ==> Lower(k) == k
  {
    if raw == [] then map[]
    else
      var n := |raw| - 1;
      LowerIdempotent(raw[n].0);
      Headers(raw[..n])[Lower(raw[n].0) := raw[n].1]
  }

  /** A name is present exactly when some header lower-cases to it. */
  lemma {:induction false} HeadersKeys(raw: seq<(string, string)>, k: string)
    ensures k in Headers(raw) <==> exists i :: 0 <= i < |raw| && Lower(raw[i].0) == k
  {
    if raw != [] {
      var n := |raw| - 1;
      HeadersKeys(raw[..n], k);
      if k in Headers(raw[..n]) {
        var i :| 0 <= i < n && Lower(raw[..n][i].0) == k;
        assert raw[..n][i] == raw[i];
      }
      if exists i :: 0 <= i < |raw| && Lower(raw[i].0) == k {
        var i :| 0 <= i < |raw| && Lower(raw[i].0) == k;
        if i < n {
          assert raw[..n][i] == raw[i];
        }
      }
    }
  }

  /** The value kept for a name is that of the last header lower-casing to it. */
  lemma {:induction false} HeadersLast(raw: seq<(string, string)>, i: nat)
    requires i < |raw|
    requires forall j :: i < j < |raw| ==> Lower(raw[j].0) != Lower(raw[i].0)
    ensures Lower(raw[i].0) in Headers(raw) && Headers(raw)[Lower(raw[i].0)] == raw[i].1
  {
    var n := |raw| - 1;
    if i < n {
      assert forall j :: i < j < n ==> raw[..n][j] == raw[j];
      HeadersLast(raw[..n], i);
      assert raw[..n][i] == raw[i];
    }
  }

  /** `_normalize_path`: a missing or empty path is "/", a leading "/" is added when
      absent, and one trailing "/" is cut from anything longer than "/". */
  function NormalizePath(path: Option<string>): (r: string)
    ensures r != [] && r[0] == '/'
    ensures path.None? || path == Some([]) ==> r == "/"
    ensures var q := Rooted(path); r == q || (|q| > 1 && q == r + "/")
  {
    var q := Rooted(path);
    if |q| > 1 && q[|q| - 1] == '/' then q[..|q| - 1] else q
  }

  /** The path with the default and the leading "/" applied. */
  function Rooted(path: Option<string>): (q: string)
    ensures q != [] && q[0] == '/'
  {
    var p := if path.None? || path.value == [] then "/" else path.value;
    if p[0] == '/' then p else "/" + p
  }

  /** A rooted path without a trailing "/" (or "/" itself) is left as it is. */
  lemma {:induction false} NormalizeFixed(s: string)
    requires s != [] && s[0] == '/' && (|s| == 1 || s[|s| - 1] != '/')
    ensures NormalizePath(Some(s)) == s
  {
    assert Rooted(Some(s)) == s;
  }

  /** Normalising twice changes nothing unless the path ended in two slashes. */
  lemma {:induction false} NormalizeTwice(path: Option<string>)
    requires var q := Rooted(path); !(|q| > 2 && q[|q| - 1] == '/' && q[|q| - 2] == '/')
    ensures NormalizePath(Some(NormalizePath(path))) == NormalizePath(path)
  {
    var q := Rooted(path);
    var r := NormalizePath(path);
    if |q| > 1 && q[|q| - 1] == '/' {
      assert r == q[..|q| - 1];
      assert |r| == 1 || r[|r| - 1] == q[|q| - 2];
    }
    NormalizeFixed(r);
  }

  /** Only one trailing "/" goes, so normalisation is not idempotent. */
  lemma {:induction false} NormalizeNotIdempotent()
    ensures NormalizePath(Some("/a//")) == "/a/"
    ensures NormalizePath(Some("/a/")) == "/a"
    ensures NormalizePath(Some("tasks")) == "/tasks"
  {
    assert Rooted(Some("/a//")) == "/a//";
    assert "/a//"[..3] == "/a/";
    assert Rooted(Some("/a/")) == "/a/";
    assert "/a/"[..2] == "/a";
  }

  /** A query or body value as `_to_bool` sees it: a bool, None, or anything else,
      which it reads through `str()`. */
  datatype Value = Bool(b: bool) | NoneValue | Text(s: string)

  const TrueWords: seq<string> := ["true", "1", "yes", "y", "on"]
  const FalseWords: seq<string> := ["false", "0", "no", "n", "off"]

  /** `_to_bool`. */
  function ToBool(value: Value, default: bool): bool
  {
    match value
    case Bool(b) => b
    case NoneValue => default
    case Text(s) =>
      var t := Lower(Strip(s));
      if t in TrueWords then true
      else if t in FalseWords then false
      else default
  }

  /** A recognised word decides the value whatever the default; anything else gives the
      default. */
  lemma {:induction false} ToBoolText(s: string, default: bool)
    ensures Lower(Strip(s)) in TrueWords ==> ToBool(Text(s), default)
    ensures Lower(Strip(s)) in FalseWords ==> !ToBool(Text(s), default)
    ensures Lower(Strip(s)) !in TrueWords + FalseWords ==> ToBool(Text(s), default) == default
    ensures ToBool(Text(s), default) != default ==> Lower(Strip(s)) in TrueWords + FalseWords
  {
    var t := Lower(Strip(s));
    if t in TrueWords {
      assert t !in FalseWords by {
        TrueWordsNotFalse(t);
      }
    }
  }

  lemma {:induction false} TrueWordsNotFalse(t: string)
    requires t in TrueWords
    ensures t !in FalseWords
  {
    var i :| 0 <= i < |TrueWords| && TrueWords[i] == t;
    if i == 0 {
      assert t[0] == 't';
    } else if i == 1 {
      assert t == "1";
    } else if i == 2 {
      assert t[0] == 'y' && |t| == 3;
    } else if i == 3 {
      assert t == "y";
    } else {
      assert t == "on";
    }
  }

  lemma {:induction false} ToBoolPaddedWord()
    ensures ToBool(Text(" Yes "), false)
  {
    PaddedYes();
  }

  lemma {:induction false} PaddedYes()
    ensures Lower(Strip(" Yes ")) == "yes"
  {
    TrimStartPadded();
    TrimEndPadded();
    LowerYes();
  }

  lemma {:induction false} TrimStartPadded()
    ensures TrimStart(" Yes ") == "Yes "
  {
    var s := " Yes ";
    assert IsSpace(s[0]) && s[1..] == "Yes ";
    assert !IsSpace("Yes "[0]);
  }

  lemma {:induction false} TrimEndPadded()
    ensures TrimEnd("Yes ") == "Yes"
  {
    var t := "Yes ";
    assert IsSpace(t[3]) && t[..3] == "Yes";
    assert !IsSpace("Yes"[2]);
  }

  lemma {:induction false} LowerYes()
    ensures Lower("Yes") == "yes"
  {
    var l := Lower("Yes");
    assert l[0] == 'y' && l[1] == 'e' && l[2] == 's';
  }

  /** `_require_user_id`: the stripped `x-user-id` header, or a 401 when it is missing
      or blank. */
  function RequireUserId(raw: seq<(string, string)>): (r: Result<string, HttpError>)
    ensures r.Failure? ==> r.error == MissingUserId
    ensures r.Success? ==> r.value != [] && !IsSpace(r.value[0]) && !IsSpace(r.value[|r.value| - 1])
  {
    var h := Headers(raw);
    var value := Strip(if "x-user-id" in h then h["x-user-id"] else "");
    if value == [] then Failure(MissingUserId) else Success(value)
  }

  /** The header is found under any spelling of its name, and its value is stripped. */
  lemma {:induction false} RequireUserIdFound(raw: seq<(string, string)>, i: nat)
    requires i < |raw| && Lower(raw[i].0) == "x-user-id"
    requires forall j :: i < j < |raw| ==> Lower(raw[j].0) != "x-user-id"
    ensures Strip(raw[i].1) != [] ==> RequireUserId(raw) == Success(Strip(raw[i].1))
    ensures Strip(raw[i].1) == [] ==> RequireUserId(raw) == Failure(MissingUserId)
  {
    HeadersLast(raw, i);
  }

  /** Without any header lower-casing to `x-user-id` the request is refused. */
  lemma {:induction false} RequireUserIdAbsent(raw: seq<(string, string)>)
    requires forall j :: 0 <= j < |raw| ==> Lower(raw[j].0) != "x-user-id"
    ensures RequireUserId(raw) == Failure(MissingUserId)
  {
    HeadersKeys(raw, "x-user-id");
    assert Strip("") == "";
  }

  /** `re.fullmatch(prefix + "([^/]+)" + suffix, path).group(1)`. */
  function MatchSegment(path: string, prefix: string, suffix: string): (r: Option<string>)
    ensures r.Some? ==> r.value != [] && '/' !in r.value && path == prefix + r.value + suffix
  {
    if |path| >= |prefix| + |suffix| && path[..|prefix|] == prefix && path[|path| - |suffix|..] == suffix then
      var id := path[|prefix|..|path| - |suffix|];
      if id != [] && '/' !in id then
        assert path == path[..|prefix|] + id + path[|path| - |suffix|..];
        Some(id)
      else None
    else None
  }

  /** The pattern captures exactly the segment between prefix and suffix. */
  lemma {:induction false} MatchSegmentOf(prefix: string, id: string, suffix: string)
    requires id != [] && '/' !in id
    ensures MatchSegment(prefix + id + suffix, prefix, suffix) == Some(id)
  {
    var path := prefix + id + suffix;
    assert path[..|prefix|] == prefix;
    assert path[|path| - |suffix|..] == suffix;
    assert path[|prefix|..|path| - |suffix|] == id;
  }

  /** The handler `_route` hands a request to. */
  datatype Endpoint =
    | Preflight | Health | AuthSignup | AuthLogin | GetProfile | SaveOnboarding
    | ListSubjects | CreateSubject | DeleteSubject(subjectId: string)
    | ListTasks | CreateTask | SetTaskCompleted(taskId: string) | DeleteTask(taskId: string)
    | ListEvents | CreateEvent | DeleteEvent(eventId: string)
    | ListGrades | SaveGrade(gradeSubjectId: string) | PesuAttendance

  /** Every id an endpoint carries is one non-empty path segment. */
  predicate SegmentIds(e: Endpoint) {
    match e
    case DeleteSubject(id) => id != [] && '/' !in id
    case SetTaskCompleted(id) => id != [] && '/' !in id
    case DeleteTask(id) => id != [] && '/' !in id
    case DeleteEvent(id) => id != [] && '/' !in id
    case SaveGrade(id) => id != [] && '/' !in id
    case _ => true
  }

  /** The request method, "GET" when missing or empty, upper-cased. */
  function RequestMethod(httpMethod: Option<string>): string
  {
    Upper(if httpMethod.None? || httpMethod.value == [] then "GET" else httpMethod.value)
  }

  /** The methods the table mentions; any other method string reaches no entry. */
  datatype Verb = OptionsVerb | GetVerb | PostVerb | PatchVerb | DeleteVerb | OtherVerb

  function VerbOf(m: string): (v: Verb)
    ensures v == OptionsVerb <==> m == "OPTIONS"
    ensures v == GetVerb <==> m == "GET"
    ensures v == PostVerb <==> m == "POST"
    ensures v == PatchVerb <==> m == "PATCH"
    ensures v == DeleteVerb <==> m == "DELETE"
  {
    if m == "OPTIONS" then OptionsVerb
    else if m == "GET" then GetVerb
    else if m == "POST" then PostVerb
    else if m == "PATCH" then PatchVerb
    else if m == "DELETE" then DeleteVerb
    else OtherVerb
  }

  /** `_route`: the first entry of the table that matches the method and the normalised
      path; 404 when none does. Entries for different methods never compete, so the
      table is read one method at a time, each in the source's order. */
  function Route(httpMethod: Option<string>, path: Option<string>): (r: Result<Endpoint, HttpError>)
    ensures r.Failure? ==> r.error == NotFound
    ensures r.Success? ==> SegmentIds(r.value)
  {
    var p := NormalizePath(path);
    match VerbOf(RequestMethod(httpMethod))
    case OptionsVerb => Success(Preflight)
    case GetVerb => RouteGet(p)
    case PostVerb => RoutePost(p)
    case PatchVerb => RoutePatch(p)
    case DeleteVerb => RouteDelete(p)
    case OtherVerb => Failure(NotFound)
  }

  function RouteGet(p: string): (r: Result<Endpoint, HttpError>)
    ensures r.Failure? ==> r.error == NotFound
    ensures r.Success? ==> SegmentIds(r.value)
  {
    if p == "/health" then Success(Health)
    else if p == "/profile" then Success(GetProfile)
    else if p == "/subjects" then Success(ListSubjects)
    else if p == "/tasks" then Success(ListTasks)
    else if p == "/events" then Success(ListEvents)
    else if p == "/grades" then Success(ListGrades)
    else Failure(NotFound)
  }

  function RoutePost(p: string): (r: Result<Endpoint, HttpError>)
    ensures r.Failure? ==> r.error == NotFound
    ensures r.Success? ==> SegmentIds(r.value)
  {
    if p == "/auth/signup" then Success(AuthSignup)
    else if p == "/auth/login" then Success(AuthLogin)
    else if p == "/onboarding" then Success(SaveOnboarding)
    else if p == "/subjects" then Success(CreateSubject)
    else if p == "/tasks" then Success(CreateTask)
    else if p == "/events" then Success(CreateEvent)
    else if MatchSegment(p, "/grades/", "").Some? then
      Success(SaveGrade(MatchSegment(p, "/grades/", "").value))
    else if p == "/attendance/pesu" then Success(PesuAttendance)
    else Failure(NotFound)
  }

  function RoutePatch(p: string): (r: Result<Endpoint, HttpError>)
    ensures r.Failure? ==> r.error == NotFound
    ensures r.Success? ==> SegmentIds(r.value)
  {
    if MatchSegment(p, "/tasks/", "/completed").Some? then
      Success(SetTaskCompleted(MatchSegment(p, "/tasks/", "/completed").value))
    else Failure(NotFound)
  }

  function RouteDelete(p: string): (r: Result<Endpoint, HttpError>)
    ensures r.Failure? ==> r.error == NotFound
    ensures r.Success? ==> SegmentIds(r.value)
  {
    if MatchSegment(p, "/subjects/", "").Some? then
      Success(DeleteSubject(MatchSegment(p, "/subjects/", "").value))
    else if MatchSegment(p, "/tasks/", "").Some? then
      Success(DeleteTask(MatchSegment(p, "/tasks/", "").value))
    else if MatchSegment(p, "/events/", "").Some? then
      Success(DeleteEvent(MatchSegment(p, "/events/", "").value))
    else Failure(NotFound)
  }

  /** A preflight request is answered before any path is looked at. */
  lemma {:induction false} RoutePreflight(httpMethod: Option<string>, path: Option<string>)
    requires RequestMethod(httpMethod) == "OPTIONS"
    ensures Route(httpMethod, path) == Success(Preflight)
  {
  }

  /** DELETE on `/tasks/{id}` reaches DeleteTask exactly for a one-segment id. */
  lemma {:induction false} RouteDeleteTask(httpMethod: Option<string>, path: Option<string>, id: string)
    requires RequestMethod(httpMethod) == "DELETE"
    ensures Route(httpMethod, path) == Success(DeleteTask(id))
      <==> NormalizePath(path) == "/tasks/" + id && id != [] && '/' !in id
  {
    RouteDeleteTaskPath(NormalizePath(path), id);
  }

  lemma {:induction false} RouteDeleteTaskPath(p: string, id: string)
    ensures RouteDelete(p) == Success(DeleteTask(id)) <==> p == "/tasks/" + id && id != [] && '/' !in id
  {
    if RouteDelete(p) == Success(DeleteTask(id)) {
      var m := MatchSegment(p, "/tasks/", "");
      assert m == Some(id);
      assert p == "/tasks/" + id + "";
      assert "/tasks/" + id + "" == "/tasks/" + id;
    }
    if p == "/tasks/" + id && id != [] && '/' !in id {
      assert p + "" == p;
      MatchSegmentOf("/tasks/", id, "");
      assert MatchSegment(p, "/subjects/", "").None? by {
        assert p[1] == 't';
      }
    }
  }

  /** The method is case-insensitive and the path may lack its leading "/" and carry
      a trailing one. */
  lemma {:induction false} RouteLoosePath()
    ensures Route(Some("patch"), Some("tasks/t1/completed/")) == Success(SetTaskCompleted("t1"))
  {
    MethodPatch();
    LoosePath();
    PatchCompleted();
    assert Route(Some("patch"), Some("tasks/t1/completed/")) == RoutePatch("/tasks/t1/completed");
  }

  lemma {:induction false} PatchCompleted()
    ensures RoutePatch("/tasks/t1/completed") == Success(SetTaskCompleted("t1"))
  {
    MatchSegmentOf("/tasks/", "t1", "/completed");
    assert "/tasks/" + "t1" + "/completed" == "/tasks/t1/completed";
  }

  lemma {:induction false} MethodPatch()
    ensures VerbOf(RequestMethod(Some("patch"))) == PatchVerb
  {
    assert RequestMethod(Some("patch")) == "PATCH";
  }

  lemma {:induction false} LoosePath()
    ensures NormalizePath(Some("tasks/t1/completed/")) == "/tasks/t1/completed"
  {
    assert Rooted(Some("tasks/t1/completed/")) == "/tasks/t1/completed/";
  }

  /** An id holding a "/" matches no entry. */
  lemma {:induction false} RouteNestedId()
    ensures Route(Some("DELETE"), Some("/tasks/a/b")) == Failure(NotFound)
  {
    MethodDelete();
    assert NormalizePath(Some("/tasks/a/b")) == "/tasks/a/b";
    assert MatchSegment("/tasks/a/b", "/subjects/", "").None? by {
      assert "/tasks/a/b"[..10] != "/subjects/";
    }
    assert MatchSegment("/tasks/a/b", "/tasks/", "").None? by {
      assert "/tasks/a/b"[7..10] == "a/b";
    }
    assert MatchSegment("/tasks/a/b", "/events/", "").None? by {
      assert "/tasks/a/b"[1] != "/events/"[1];
    }
  }

  lemma {:induction false} MethodDelete()
    ensures VerbOf(RequestMethod(Some("DELETE"))) == DeleteVerb
  {
    assert RequestMethod(Some("DELETE")) == "DELETE";
  }

  /** A missing method is GET. */
  lemma {:induction false} RouteDefaultMethod()
    ensures Route(None, Some("/health/")) == Success(Health)
  {
    assert RequestMethod(None) == "GET";
    assert Rooted(Some("/health/")) == "/health/";
    assert NormalizePath(Some("/health/")) == "/health";
  }
}
