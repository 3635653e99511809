/**
 * Routing of HTTP requests to script files (`HttpRequestScriptHandler`):
 * the configured prefix and suffixes, the decision whether a request is
 * handled by a script at all, the parsing of `<prefix><path>@<method><suffix>`
 * URIs into a script path and a function name, and the control flow of
 * `preHandle` around an engine borrowed from a pool.
 *
 * The script engine pool, the script engine and the response are not
 * interpreted: they are the fields of `Hooks`, and `preHandle` records what
 * it does to the response and the pool as a list of events.
 */
module ScriptHandler {
  import opened Wrappers
  import opened JavaString

  /** Request parameter or header that forces script handling. */
  const FORCE_USE_SCRIPT: string := "force-use-script"
  /** Response header naming the script that handled the request. */
  const USE_SCRIPT_HANDLER_HEAD: string := "use-script-handler-file"
  /** Separates the file path from the function name in the last segment. */
  const SEPARATE: char := '@'
  const DEFAULT_PREFIX: string := "/!/"
  const DEFAULT_SUFFIXES: set<string> := {"", ".json", ".action"}
  /** `HttpStatus.SERVICE_UNAVAILABLE`. */
  const SERVICE_UNAVAILABLE: int := 503
  const JSON_CONTENT_TYPE: string := "application/json;charset=UTF-8"

  /** The handler's final configuration: the URI prefix and the set of URI suffixes it serves. */
  datatype Config = Config(prefix: string, suffixes: set<string>)

  /** What the request carries that routing looks at. */
  datatype Request = Request(uri: string, forceParam: Option<string>, forceHeader: Option<string>)

  /** The kind of Spring MVC handler already mapped to the request. */
  datatype HandlerKind =
    | ControllerMethod
    | StaticResource(resourceExists: bool)
    | ViewController
    | UnknownHandler

  /** A script file path (always starting with "/") and the function to call in it. */
  datatype ScriptInfo = ScriptInfo(path: string, methodName: string)

  datatype Error = StringIndexOutOfBounds(begin: int, end: int) | EngineUnavailable | NullPointer | ScriptFailure(detail: string)

  /**
   * The prefix the handler serves: the trimmed argument, or "/!/" when it is
   * null or blank.
   */
  function SupportPrefix(prefix: Option<string>): (r: string)
    ensures IsBlankOrNull(prefix) ==> r == DEFAULT_PREFIX
    ensures !IsBlankOrNull(prefix) ==> r == Trim(prefix.value)
    ensures Trimmed(r)
  {
    if IsBlankOrNull(prefix) then DEFAULT_PREFIX else Trim(prefix.value)
  }

  /**
   * The suffixes the handler serves: those given, or "", ".json" and
   * ".action" when none are; nulls dropped, each trimmed.
   */
  function SupportSuffixes(suffixes: Option<set<Option<string>>>): (r: set<string>)
    ensures forall s :: s in r ==> Trimmed(s)
    ensures suffixes.Some? ==> forall s :: s in r <==> exists x :: x in suffixes.value && x.Some? && s == Trim(x.value)
    ensures suffixes.Some? ==> forall x :: x in suffixes.value && x.Some? ==> Trim(x.value) in r
  {
    var given := if suffixes.Some? then suffixes.value else set s | s in DEFAULT_SUFFIXES :: Some(s);
    set x | x in given && x.Some? :: Trim(x.value)
  }

  /** `new HttpRequestScriptHandler(supportPrefix, supportSuffix, pool)`. */
  function NewHandler(prefix: Option<string>, suffixes: Option<set<Option<string>>>): (c: Config)
    ensures c.prefix == SupportPrefix(prefix) && c.suffixes == SupportSuffixes(suffixes)
  {
    Config(SupportPrefix(prefix), SupportSuffixes(suffixes))
  }

  /** `new HttpRequestScriptHandler(pool)`: prefix "/!/", suffixes "", ".json" and ".action". */
  lemma DefaultHandler()
    ensures NewHandler(None, None) == Config(DEFAULT_PREFIX, DEFAULT_SUFFIXES)
  {
    var r := SupportSuffixes(None);
    assert Trim("") == "";
    assert Trim(".json") == ".json";
    assert Trim(".action") == ".action";
    assert Some("") in set s | s in DEFAULT_SUFFIXES :: Some(s);
    assert Some(".json") in set s | s in DEFAULT_SUFFIXES :: Some(s);
    assert Some(".action") in set s | s in DEFAULT_SUFFIXES :: Some(s);
    assert r == DEFAULT_SUFFIXES;
  }

  /** A non-blank `force-use-script` parameter or header. */
  predicate Forced(request: Request) {
    !IsBlankOrNull(request.forceParam) || !IsBlankOrNull(request.forceHeader)
  }

  /**
   * Whether the already-mapped Spring handler leaves the request to scripts:
   * a controller method only when forced, an existing static resource only
   * when forced, a missing static resource always, anything else never.
   */
  predicate HandlerAllows(handler: HandlerKind, forced: bool) {
    match handler
    case ControllerMethod => forced
    case StaticResource(exists_) => !exists_ || forced
    case ViewController => false
    case UnknownHandler => false
  }

  /** The last path segment, from the final '/' on; none when there is no '/'. */
  function LastSegment(uri: string): (r: Option<string>)
    ensures r.None? <==> '/' !in uri
    ensures r.Some? ==> r.value != [] && r.value[0] == '/' && '/' !in r.value[1..] && EndsWith(uri, r.value)
  {
    var position := LastIndexOf(uri, '/');
    if position <= -1 then None
    else
      assert uri[position..][1..] == uri[position + 1..];
      Some(uri[position..])
  }

  /** The last segment splits on '@' into exactly two parts. */
  predicate SegmentSplitsInTwo(uri: string) {
    var segment := LastSegment(uri);
    segment.Some? && |Split(segment.value, SEPARATE)| == 2
  }

  /** The declarative form of `supportScript`. */
  predicate Supported(config: Config, request: Request, handler: HandlerKind) {
    && StartsWith(request.uri, config.prefix)
    && (exists s :: s in config.suffixes && EndsWith(request.uri, s))
    && HandlerAllows(handler, Forced(request))
    && SegmentSplitsInTwo(request.uri)
  }

  /**
   * `supportScript`: prefix, then any suffix (the loop stops at the first
   * match in set order), then the handler conflict, then the URI shape.
   */
  method SupportScript(config: Config, request: Request, handler: HandlerKind) returns (support: bool)
    ensures support <==> Supported(config, request, handler)
  {
    var requestUri := request.uri;
    support := false;
    if !StartsWith(requestUri, config.prefix) {
      return false;
    }
    var remaining := config.suffixes;
    while remaining != {}
      invariant remaining <= config.suffixes
      invariant !support
      invariant forall s :: s in config.suffixes - remaining ==> !EndsWith(requestUri, s)
      decreases |remaining|
    {
      var suffix :| suffix in remaining;
      if EndsWith(requestUri, suffix) {
        support := true;
        break;
      }
      remaining := remaining - {suffix};
    }
    if support {
      match handler {
        case ControllerMethod =>
          if !Forced(request) {
            support := false;
          }
        case StaticResource(resourceExists) =>
          if resourceExists && !Forced(request) {
            support := false;
          }
        case ViewController =>
          support := false;
        case UnknownHandler =>
          support := false;
      }
    }
    if support {
      var position := LastIndexOf(requestUri, '/');
      if position <= -1 {
        support := false;
      } else {
        var lastPath := requestUri[position..];
        var arr := Split(lastPath, SEPARATE);
        if |arr| != 2 {
          support := false;
        }
      }
    }
  }

  /** The empty suffix, which the default configuration has, matches every URI. */
  lemma EmptySuffixMatchesAll(config: Config, uri: string)
    requires "" in config.suffixes
    ensures exists s :: s in config.suffixes && EndsWith(uri, s)
  {
    assert uri[|uri| - 0..] == "";
    assert EndsWith(uri, "");
  }

  /**
   * A supported URI ends in a segment `/a@b` followed by nothing but '@'s,
   * where neither `a` nor `b` contains '@' and `b` is not empty.
   */
  lemma SupportedShape(config: Config, request: Request, handler: HandlerKind)
    requires Supported(config, request, handler)
    ensures '/' in request.uri
    ensures exists a, b :: SplitsInTwo(LastSegment(request.uri).value, SEPARATE, a, b)
  {
    SplitTwoExactly(LastSegment(request.uri).value, SEPARATE);
  }

  /** The splitting rule on the three shapes of a last segment that matter. */
  lemma SplitExamples()
    ensures |Split("/x@", SEPARATE)| == 1
    ensures |Split("/@m", SEPARATE)| == 2
    ensures |Split("/a@b@", SEPARATE)| == 2
  {
    assert "/x@" == "/x" + Repeat(SEPARATE, 1);
    SplitDropsTrailingSeparators("/x", 1, SEPARATE);
    assert "/@m" == "/" + [SEPARATE] + "m" + Repeat(SEPARATE, 0);
    SplitOfShape("/", "m", 0, SEPARATE);
    assert "/a@b@" == "/a" + [SEPARATE] + "b" + Repeat(SEPARATE, 1);
    SplitOfShape("/a", "b", 1, SEPARATE);
  }

  /**
   * What the suffix loop of `getScriptInfo` can leave: the URI unchanged when
   * no non-blank suffix matches, otherwise the URI without one non-blank
   * suffix that matches (which one depends on set order).
   */
  ghost predicate Stripped(suffixes: set<string>, uri: string, requestPath: string) {
    || (requestPath == uri && forall s :: s in suffixes && !IsBlank(s) ==> !EndsWith(uri, s))
    || (exists s :: s in suffixes && !IsBlank(s) && EndsWith(uri, s) && requestPath == uri[..|uri| - |s|])
  }

  /** The URI is left as it is exactly when no non-blank suffix matches. */
  lemma StrippedUnchangedIffNoMatch(suffixes: set<string>, uri: string, requestPath: string)
    requires Stripped(suffixes, uri, requestPath)
    ensures requestPath == uri <==> forall s :: s in suffixes && !IsBlank(s) ==> !EndsWith(uri, s)
    ensures EndsWith(uri, []) && |requestPath| <= |uri| && requestPath == uri[..|requestPath|]
  {
    if requestPath != uri {
      var s :| s in suffixes && !IsBlank(s) && EndsWith(uri, s) && requestPath == uri[..|uri| - |s|];
      assert s != [];
    }
    assert uri[|uri| - 0..] == [];
  }

  /** The suffix loop of `getScriptInfo`: blank suffixes are skipped, the first match is cut off. */
  method StripSuffix(suffixes: set<string>, uri: string) returns (requestPath: string)
    ensures Stripped(suffixes, uri, requestPath)
  {
    requestPath := uri;
    var remaining := suffixes;
    while remaining != {}
      invariant remaining <= suffixes
      invariant forall s :: s in suffixes - remaining && !IsBlank(s) ==> !EndsWith(uri, s)
      decreases |remaining|
    {
      var suffix :| suffix in remaining;
      if !IsBlank(suffix) && EndsWith(uri, suffix) {
        requestPath := uri[..|uri| - |suffix|];
        return;
      }
      remaining := remaining - {suffix};
    }
  }

  /** The function name: the second '@' part of the last segment, when there are exactly two. */
  function MethodOf(requestPath: string): Option<string> {
    var segment := LastSegment(requestPath);
    if segment.Some? && |Split(segment.value, SEPARATE)| == 2 then Some(Split(segment.value, SEPARATE)[1]) else None
  }

  /** The function name is the non-empty, '@'-free part after the only '@' of the last segment (trailing '@'s aside). */
  lemma MethodOfShape(requestPath: string)
    requires MethodOf(requestPath).Some?
    ensures SplitsInTwo(LastSegment(requestPath).value, SEPARATE, Split(LastSegment(requestPath).value, SEPARATE)[0], MethodOf(requestPath).value)
  {
    SplitTwoExactly(LastSegment(requestPath).value, SEPARATE);
  }

  /** `Math.max`. */
  function Max(a: int, b: int): int {
    if a >= b then a else b
  }

  /** The outcome of parsing a request path, before the file-existence check. */
  datatype Lookup =
    | NoScript
    | OutOfRange(begin: int, end: int)
    | Candidate(filePath: string, info: ScriptInfo)

  /**
   * The parse of `getScriptInfo` after the suffix is cut: a non-blank
   * method, then the file path between the prefix's last character and the
   * "@method" at the end, which must be non-blank; the script path is the
   * file path with a leading "/" added when missing.
   */
  function Locate(prefix: string, requestPath: string): Lookup {
    var methodName := MethodOf(requestPath);
    if methodName.None? || IsBlank(methodName.value) then NoScript
    else
      var beginIndex := |prefix| - 1;
      var endIndex := |requestPath| - (1 + |methodName.value|);
      var begin := Max(beginIndex, 0);
      if begin > endIndex then OutOfRange(begin, endIndex)
      else
        var filePath := requestPath[begin..endIndex];
        if IsBlank(filePath) then NoScript
        else Candidate(filePath, ScriptInfo(if StartsWith(filePath, "/") then filePath else "/" + filePath, methodName.value))
  }

  /**
   * What a parse can give: nothing without a non-blank method; an
   * out-of-range error when the prefix reaches past the method; otherwise a
   * non-blank file path cut between them, and a script path that is the file
   * path with a leading '/' ensured.
   */
  lemma LocateShape(prefix: string, requestPath: string)
    ensures var r := Locate(prefix, requestPath);
      && (MethodOf(requestPath).None? || IsBlank(MethodOf(requestPath).value) ==> r == NoScript)
      && (r.OutOfRange? ==> r.begin == Max(|prefix| - 1, 0) > r.end == |requestPath| - 1 - |MethodOf(requestPath).value|)
      && (r.Candidate? ==>
        && MethodOf(requestPath) == Some(r.info.methodName) && !IsBlank(r.info.methodName)
        && Max(|prefix| - 1, 0) <= |requestPath| - 1 - |r.info.methodName| <= |requestPath|
        && r.filePath == requestPath[Max(|prefix| - 1, 0)..|requestPath| - 1 - |r.info.methodName|]
        && !IsBlank(r.filePath)
        && StartsWith(r.info.path, "/")
        && (StartsWith(r.filePath, "/") ==> r.info.path == r.filePath)
        && (!StartsWith(r.filePath, "/") ==> r.info.path == "/" + r.filePath))
  {
    var r := Locate(prefix, requestPath);
    if r.Candidate? {
      assert ("/" + r.filePath)[..1] == "/";
    }
  }

  /** The script info for a parse: found only when the existence check accepts the raw file path. */
  function Resolve(lookup: Lookup, fileExists: string -> bool): (r: Result<Option<ScriptInfo>, Error>)
    ensures r.Failure? <==> lookup.OutOfRange?
    ensures r.Success? && r.value.Some? <==> lookup.Candidate? && fileExists(lookup.filePath)
    ensures r.Success? && r.value.Some? ==> r.value.value == lookup.info
  {
    match lookup
    case NoScript => Success(None)
    case OutOfRange(b, e) => Failure(StringIndexOutOfBounds(b, e))
    case Candidate(filePath, info) => if fileExists(filePath) then Success(Some(info)) else Success(None)
  }

  /**
   * `getScriptInfo`: cut one suffix, parse, and keep the result only when
   * the file exists. A substring with the begin past the end throws.
   */
  method GetScriptInfo(config: Config, fileExists: string -> bool, uri: string) returns (r: Result<Option<ScriptInfo>, Error>)
    ensures exists requestPath :: Stripped(config.suffixes, uri, requestPath) && r == Resolve(Locate(config.prefix, requestPath), fileExists)
  {
    var requestPath := StripSuffix(config.suffixes, uri);
    r := ParseRequestPath(config.prefix, fileExists, requestPath);
  }

  /** The rest of `getScriptInfo`, once the suffix is cut: parse, then check that the file exists. */
  method ParseRequestPath(prefix: string, fileExists: string -> bool, requestPath: string) returns (r: Result<Option<ScriptInfo>, Error>)
    ensures r == Resolve(Locate(prefix, requestPath), fileExists)
  {
    var methodName := MethodName(requestPath);
    ghost var lookup := Locate(prefix, requestPath);
    if IsBlankOrNull(methodName) {
      assert lookup == NoScript;
      r := Success(None);
    } else {
      var beginIndex := |prefix| - 1;
      var endIndex := |requestPath| - (1 + |methodName.value|);
      var begin := Max(beginIndex, 0);
      if begin > endIndex {
        assert lookup == OutOfRange(begin, endIndex);
        r := Failure(StringIndexOutOfBounds(begin, endIndex));
      } else {
        var filePath := requestPath[begin..endIndex];
        if IsBlank(filePath) {
          assert lookup == NoScript;
          r := Success(None);
        } else {
          var info := ScriptInfo(if StartsWith(filePath, "/") then filePath else "/" + filePath, methodName.value);
          assert lookup == Candidate(filePath, info);
          if fileExists(filePath) {
            r := Success(Some(info));
          } else {
            r := Success(None);
          }
        }
      }
    }
    assert r == Resolve(lookup, fileExists);
  }

  /** The first step of `getScriptInfo`'s parse: the method name is the second part of the last segment split on '@', if it splits in two. */
  method MethodName(requestPath: string) returns (methodName: Option<string>)
    ensures methodName == MethodOf(requestPath)
  {
    methodName := None;
    var position := LastIndexOf(requestPath, '/');
    if position >= 0 {
      var lastPath := requestPath[position..];
      var arr := Split(lastPath, SEPARATE);
      if |arr| == 2 {
        methodName := Some(arr[1]);
      }
    }
  }

  /** A parse whose method and file path are known, and whose file path already starts with '/'. */
  lemma LocateFound(prefix: string, requestPath: string, methodName: string, filePath: string)
    requires MethodOf(requestPath) == Some(methodName) && !IsBlank(methodName)
    requires Max(|prefix| - 1, 0) <= |requestPath| - 1 - |methodName|
    requires requestPath[Max(|prefix| - 1, 0)..|requestPath| - 1 - |methodName|] == filePath
    requires filePath != [] && filePath[0] == '/'
    ensures Locate(prefix, requestPath) == Candidate(filePath, ScriptInfo(filePath, methodName))
  {
    assert filePath[..1] == "/";
    assert !IsBlank(filePath);
  }

  /**
   * The routing round trip: a path `<prefix><body>@<method>`, with a prefix
   * ending in '/', a body without '@' and a non-blank method without '/' or
   * '@', is read back as the script "/<body>" and the function `method`.
   */
  lemma LocateRoundTrip(prefix: string, body: string, methodName: string)
    requires |prefix| >= 1 && prefix[|prefix| - 1] == '/'
    requires SEPARATE !in body && SEPARATE !in methodName && '/' !in methodName && !IsBlank(methodName)
    ensures Locate(prefix, prefix + body + [SEPARATE] + methodName) == Candidate("/" + body, ScriptInfo("/" + body, methodName))
  {
    var path := prefix + body + [SEPARATE] + methodName;
    assert path + Repeat(SEPARATE, 0) == path;
    SegmentWithMethod(prefix, body, methodName, 0);
    var fp := "/" + body;
    assert path[|prefix| - 1..|prefix| + |body|] == fp;
    LocateFound(prefix, path, methodName, fp);
  }

  /**
   * The same path with one extra '@' at the end: `split` drops the empty
   * last part, so the method is still found, but the length arithmetic then
   * keeps that '@' at the end of the file path (`/!/a@biz@` gives "/a@").
   */
  lemma LocateKeepsTrailingSeparator(prefix: string, body: string, methodName: string)
    requires |prefix| >= 1 && prefix[|prefix| - 1] == '/'
    requires SEPARATE !in body && SEPARATE !in methodName && '/' !in methodName && !IsBlank(methodName)
    ensures Locate(prefix, prefix + body + [SEPARATE] + methodName + [SEPARATE])
      == Candidate("/" + body + [SEPARATE], ScriptInfo("/" + body + [SEPARATE], methodName))
  {
    var path := prefix + body + [SEPARATE] + methodName + [SEPARATE];
    assert path == prefix + body + [SEPARATE] + methodName + Repeat(SEPARATE, 1);
    SegmentWithMethod(prefix, body, methodName, 1);
    var fp := "/" + body + [SEPARATE];
    var pre := prefix[..|prefix| - 1];
    assert prefix == pre + "/";
    assert path == (pre + fp) + (methodName + [SEPARATE]);
    assert path[|pre|..|pre| + |fp|] == fp;
    LocateFound(prefix, path, methodName, fp);
  }

  /** The last segment of a `<prefix><body>@<method>` path followed by `k` '@'s, and how it splits. */
  lemma SegmentWithMethod(prefix: string, body: string, methodName: string, k: nat)
    requires |prefix| >= 1 && prefix[|prefix| - 1] == '/'
    requires SEPARATE !in body && SEPARATE !in methodName && '/' !in methodName && !IsBlank(methodName)
    ensures MethodOf(prefix + body + [SEPARATE] + methodName + Repeat(SEPARATE, k)) == Some(methodName)
  {
    var path := prefix + body + [SEPARATE] + methodName + Repeat(SEPARATE, k);
    var tailStart := |prefix| + |body|;
    assert forall j :: tailStart <= j < |path| ==> path[j] != '/' by {
      forall j | tailStart <= j < |path|
        ensures path[j] != '/'
      {
        if j == tailStart {
          assert path[j] == SEPARATE;
        } else if j <= tailStart + |methodName| {
          assert path[j] == methodName[j - tailStart - 1];
        } else {
          assert path[j] == Repeat(SEPARATE, k)[j - tailStart - 1 - |methodName|];
        }
      }
    }
    var p := LastIndexOf(path, '/');
    assert path[|prefix| - 1] == '/';
    assert |prefix| - 1 <= p < tailStart;
    var segment := path[p..];
    var a := path[p..tailStart];
    assert SEPARATE !in a by {
      forall n | 0 <= n < |a|
        ensures a[n] != SEPARATE
      {
        if p + n >= |prefix| {
          assert a[n] == body[p + n - |prefix|];
        } else {
          assert a[n] == '/';
        }
      }
    }
    assert segment == a + [SEPARATE] + methodName + Repeat(SEPARATE, k);
    assert IsBlank([]);
    SplitOfShape(a, methodName, k, SEPARATE);
  }

  /** When exactly one non-blank suffix matches, that suffix is the one cut off, whatever the set order. */
  lemma StrippedByOnlyMatch(suffixes: set<string>, uri: string, suffix: string, requestPath: string)
    requires suffix in suffixes && !IsBlank(suffix) && EndsWith(uri, suffix)
    requires forall s :: s in suffixes && !IsBlank(s) && s != suffix ==> !EndsWith(uri, s)
    requires Stripped(suffixes, uri, requestPath)
    ensures requestPath == uri[..|uri| - |suffix|]
  {
    assert !(requestPath == uri && forall s :: s in suffixes && !IsBlank(s) ==> !EndsWith(uri, s));
  }

  /** Of the default suffixes, only ".json" is non-blank and ends "/!/aaa/bbb@biz.json". */
  lemma ExampleOnlyJsonMatches(uri: string)
    requires uri == "/!/aaa/bbb@biz.json"
    ensures ".json" in DEFAULT_SUFFIXES && !IsBlank(".json") && EndsWith(uri, ".json")
    ensures forall s :: s in DEFAULT_SUFFIXES && !IsBlank(s) && s != ".json" ==> !EndsWith(uri, s)
  {
    assert uri[|uri| - 5..] == ".json";
    assert !IsBlank(".json") by { assert ".json"[1] == 'j'; }
    assert IsBlank("");
    forall s | s in DEFAULT_SUFFIXES && !IsBlank(s) && s != ".json"
      ensures !EndsWith(uri, s)
    {
      assert s == ".action";
      assert uri[|uri| - 7] == 'i';
    }
  }

  /** The suffix loop on "/!/aaa/bbb@biz.json" with the default suffixes cuts ".json". */
  lemma ExampleStripped(requestPath: string)
    requires Stripped(DEFAULT_SUFFIXES, "/!/aaa/bbb@biz.json", requestPath)
    ensures requestPath == "/!/aaa/bbb@biz"
  {
    var uri := "/!/aaa/bbb@biz.json";
    ExampleOnlyJsonMatches(uri);
    StrippedByOnlyMatch(DEFAULT_SUFFIXES, uri, ".json", requestPath);
    assert uri[..|uri| - 5] == "/!/aaa/bbb@biz";
  }

  /** Under the default prefix, "/!/aaa/bbb@biz" is the script "/aaa/bbb", function "biz", when that file exists. */
  lemma ExampleScriptInfo(fileExists: string -> bool)
    requires fileExists("/aaa/bbb")
    ensures Resolve(Locate(DEFAULT_PREFIX, "/!/aaa/bbb@biz"), fileExists) == Success(Some(ScriptInfo("/aaa/bbb", "biz")))
  {
    var body, methodName := "aaa/bbb", "biz";
    assert "/" + body == "/aaa/bbb";
    assert "/!/aaa/bbb@biz" == DEFAULT_PREFIX + body + [SEPARATE] + methodName;
    assert !IsBlank(methodName) by { assert methodName[0] == 'b'; }
    LocateRoundTrip(DEFAULT_PREFIX, body, methodName);
  }

  /** A script object handed back by the engine. */
  datatype ScriptObject = ScriptObject(id: nat)
  /** An engine instance from the pool. */
  datatype Engine = Engine(id: nat)
  /** A value returned by a script function. */
  datatype ScriptValue = ScriptValue(id: nat)
  /** What `getScriptObject` returns: the script object (null when absent) and the function to call on it. */
  datatype ScriptHandle = ScriptHandle(scriptObject: Option<ScriptObject>, methodName: string)
  /** What `doHandle` returns: the script's result and whether to let Spring carry on. */
  datatype HandleResult = HandleResult(res: ScriptValue, breakHandle: Option<bool>)

  /** What `preHandle` does to the pool and the response, in order. */
  datatype Event =
    | Borrowed(engine: Engine)
    | SetStatus(code: int)
    | SetHeader(name: string, value: string)
    | SetContentType(contentType: string)
    | Write(body: string)
    | Returned(engine: Engine)

  /**
   * The pool, the overridable and abstract methods of the handler, and the
   * response state `preHandle` consults. `getScriptObject` and `doHandle`
   * are the handler's own protected methods, which a subclass may replace;
   * `DefaultGetScriptObject` and `DefaultDoHandle` are the base class's.
   */
  datatype Hooks = Hooks(
    borrow: Result<Option<Engine>, Error>,
    fileExists: (Engine, string) -> bool,
    getScriptObject: (Engine, ScriptInfo) -> Result<Option<ScriptHandle>, Error>,
    doHandle: ScriptHandle -> Result<HandleResult, Error>,
    resIsEmpty: ScriptValue -> bool,
    serializeRes: ScriptValue -> Result<string, Error>,
    committed: bool)

  /**
   * The base class's `getScriptObject`: never null, it pairs the object
   * `require` loads for the path (null when `require` gives null) with the
   * function name.
   */
  function DefaultGetScriptObject(require: (Engine, string) -> Result<Option<ScriptObject>, Error>, engine: Engine, info: ScriptInfo): (r: Result<Option<ScriptHandle>, Error>)
    ensures r.Failure? <==> require(engine, info.path).Failure?
    ensures r.Failure? ==> r.error == require(engine, info.path).error
    ensures r.Success? ==>
      && r.value.Some? && r.value.value.methodName == info.methodName
      && r.value.value.scriptObject == require(engine, info.path).value
  {
    var scriptObject := require(engine, info.path);
    if scriptObject.Failure? then Failure(scriptObject.error)
    else Success(Some(ScriptHandle(scriptObject.value, info.methodName)))
  }

  /**
   * The base class's `doHandle`: call the named function on the script
   * object and never ask to break. A null script object is a
   * `NullPointerException`.
   */
  function DefaultDoHandle(callMember: (ScriptObject, string) -> Result<ScriptValue, Error>, handle: ScriptHandle): (r: Result<HandleResult, Error>)
    ensures handle.scriptObject.None? ==> r == Failure(NullPointer)
    ensures r.Success? ==>
      && handle.scriptObject.Some? && r.value.breakHandle == Some(false)
      && callMember(handle.scriptObject.value, handle.methodName) == Success(r.value.res)
    ensures handle.scriptObject.Some? && callMember(handle.scriptObject.value, handle.methodName).Failure? ==>
      r == Failure(callMember(handle.scriptObject.value, handle.methodName).error)
  {
    if handle.scriptObject.None? then Failure(NullPointer)
    else
      var res := callMember(handle.scriptObject.value, handle.methodName);
      if res.Failure? then Failure(res.error) else Success(HandleResult(res.value, Some(false)))
  }

  /** The engine was borrowed first and handed back last, and neither happened in between. */
  predicate BorrowedAndReturnedOnce(trace: seq<Event>, engine: Engine) {
    && |trace| >= 2
    && trace[0] == Borrowed(engine)
    && trace[|trace| - 1] == Returned(engine)
    && forall i :: 0 < i < |trace| - 1 ==> !trace[i].Borrowed? && !trace[i].Returned?
  }

  /** The header naming the script function that handles the request. */
  function HandlerHeader(info: ScriptInfo): (e: Event)
    ensures e.SetHeader? && e.name == USE_SCRIPT_HANDLER_HEAD
  {
    SetHeader(USE_SCRIPT_HANDLER_HEAD, info.path + "#" + info.methodName)
  }

  /**
   * What running a found script function does, outcome and events: the
   * header first; a failing call or a break flag stops there, the break
   * flag with `true`; otherwise a non-empty result on an uncommitted
   * response is written as JSON after the content type, and the request
   * counts as handled (`false`) unless serialisation fails.
   */
  ghost predicate Handled(hooks: Hooks, info: ScriptInfo, handle: ScriptHandle, r: Result<bool, Error>, events: seq<Event>) {
    match hooks.doHandle(handle)
    case Failure(e) => r == Failure(e) && events == [HandlerHeader(info)]
    case Success(result) =>
      if result.breakHandle == Some(true) then r == Success(true) && events == [HandlerHeader(info)]
      else if hooks.resIsEmpty(result.res) || hooks.committed then r == Success(false) && events == [HandlerHeader(info)]
      else match hooks.serializeRes(result.res)
        case Failure(e) => r == Failure(e) && events == [HandlerHeader(info), SetContentType(JSON_CONTENT_TYPE)]
        case Success(json) => r == Success(false) && events == [HandlerHeader(info), SetContentType(JSON_CONTENT_TYPE), Write(json)]
  }

  /**
   * What the engine-backed part of `preHandle` does once the lookup gave
   * `found`: a failing lookup or script load fails with no events; no
   * script info, a blank path or function name, or a null script object
   * leaves the request to Spring (`true`) with no events; a script object
   * is run as `Handled` says.
   */
  ghost predicate AfterLookup(hooks: Hooks, engine: Engine, found: Result<Option<ScriptInfo>, Error>, r: Result<bool, Error>, events: seq<Event>) {
    match found
    case Failure(e) => r == Failure(e) && events == []
    case Success(None) => r == Success(true) && events == []
    case Success(Some(info)) =>
      if IsBlank(info.path) || IsBlank(info.methodName) then r == Success(true) && events == []
      else match hooks.getScriptObject(engine, info)
        case Failure(e) => r == Failure(e) && events == []
        case Success(None) => r == Success(true) && events == []
        case Success(Some(handle)) => Handled(hooks, info, handle, r, events)
  }

  /** The file check `getScriptInfo` uses: `fileExists` on the borrowed engine. */
  function EngineFileExists(hooks: Hooks, engine: Engine): (exists_: string -> bool)
    ensures forall path :: exists_(path) == hooks.fileExists(engine, path)
  {
    (path: string) => hooks.fileExists(engine, path)
  }

  /**
   * The part of `preHandle` after a script object was obtained: header,
   * call, and the serialised result written when it is not empty and the
   * response is not committed. The events are those of this part alone.
   */
  method HandleScript(hooks: Hooks, info: ScriptInfo, handle: ScriptHandle) returns (r: Result<bool, Error>, events: seq<Event>)
    ensures Handled(hooks, info, handle, r, events)
  {
    events := [HandlerHeader(info)];
    var resTupleTow := hooks.doHandle(handle);
    if resTupleTow.Failure? {
      return Failure(resTupleTow.error), events;
    }
    var res := resTupleTow.value.res;
    var breakHandle := resTupleTow.value.breakHandle;
    if breakHandle == Some(true) {
      return Success(true), events;
    }
    if !hooks.resIsEmpty(res) && !hooks.committed {
      events := events + [SetContentType(JSON_CONTENT_TYPE)];
      var json := hooks.serializeRes(res);
      if json.Failure? {
        return Failure(json.error), events;
      }
      events := events + [Write(json.value)];
    }
    r := Success(false);
  }

  /**
   * The part of `preHandle` that runs with a borrowed engine: look the
   * script up, load it, and hand over to `HandleScript`. The events are
   * those of this part alone.
   */
  method WithEngine(config: Config, hooks: Hooks, request: Request, engineInstance: Engine) returns (r: Result<bool, Error>, events: seq<Event>)
    ensures exists requestPath :: (
      && Stripped(config.suffixes, request.uri, requestPath)
      && AfterLookup(hooks, engineInstance, Resolve(Locate(config.prefix, requestPath), EngineFileExists(hooks, engineInstance)), r, events))
  {
    var scriptInfo := GetScriptInfo(config, EngineFileExists(hooks, engineInstance), request.uri);
    if scriptInfo.Failure? {
      return Failure(scriptInfo.error), [];
    }
    if scriptInfo.value.None? || IsBlank(scriptInfo.value.value.path) || IsBlank(scriptInfo.value.value.methodName) {
      return Success(true), [];
    }
    var info := scriptInfo.value.value;
    var scriptHandler := hooks.getScriptObject(engineInstance, info);
    if scriptHandler.Failure? {
      return Failure(scriptHandler.error), [];
    }
    if scriptHandler.value.None? {
      return Success(true), [];
    }
    r, events := HandleScript(hooks, info, scriptHandler.value.value);
  }

  /**
   * `preHandle`: true (leave the request to Spring) when scripts do not
   * apply, no engine-backed script is found, or the script asks to break;
   * false once a script handled it. An engine that was borrowed is handed
   * back exactly once, after everything else, whatever the exit.
   */
  method PreHandle(config: Config, hooks: Hooks, request: Request, handler: HandlerKind) returns (r: Result<bool, Error>, trace: seq<Event>)
    ensures !Supported(config, request, handler) ==> r == Success(true) && trace == []
    ensures Supported(config, request, handler) && hooks.borrow.Failure? ==> r == Failure(hooks.borrow.error) && trace == []
    ensures Supported(config, request, handler) && hooks.borrow == Success(None) ==>
      r == Failure(EngineUnavailable) && trace == [SetStatus(SERVICE_UNAVAILABLE)]
    ensures Supported(config, request, handler) && hooks.borrow.Success? && hooks.borrow.value.Some? ==>
      && BorrowedAndReturnedOnce(trace, hooks.borrow.value.value)
      && exists requestPath :: (
        && Stripped(config.suffixes, request.uri, requestPath)
        && AfterLookup(hooks, hooks.borrow.value.value,
             Resolve(Locate(config.prefix, requestPath), EngineFileExists(hooks, hooks.borrow.value.value)), r, trace[1..|trace| - 1]))
    ensures r == Success(false) ==>
      && Supported(config, request, handler) && hooks.borrow.Success? && hooks.borrow.value.Some?
      && |trace| >= 3 && trace[1].SetHeader? && trace[1].name == USE_SCRIPT_HANDLER_HEAD
    ensures forall i :: 0 <= i < |trace| && trace[i].Write? ==>
      && i == 3 && trace[2] == SetContentType(JSON_CONTENT_TYPE) && r == Success(false) && !hooks.committed
      && exists v :: !hooks.resIsEmpty(v) && hooks.serializeRes(v) == Success(trace[i].body)
  {
    var supported := SupportScript(config, request, handler);
    if !supported {
      return Success(true), [];
    }
    var borrowed := hooks.borrow;
    if borrowed.Failure? {
      return Failure(borrowed.error), [];
    }
    if borrowed.value.None? {
      return Failure(EngineUnavailable), [SetStatus(SERVICE_UNAVAILABLE)];
    }
    var engineInstance := borrowed.value.value;
    var events;
    r, events := WithEngine(config, hooks, request, engineInstance);
    // finally: the engine goes back to the pool on every path
    trace := [Borrowed(engineInstance)] + events + [Returned(engineInstance)];
    ghost var requestPath :| Stripped(config.suffixes, request.uri, requestPath)
      && AfterLookup(hooks, engineInstance, Resolve(Locate(config.prefix, requestPath), EngineFileExists(hooks, engineInstance)), r, events);
    FramedLookup(hooks, engineInstance, Resolve(Locate(config.prefix, requestPath), EngineFileExists(hooks, engineInstance)), r, events);
  }

  /** `AfterLookupShape` and `Framed` together: the same facts about the events, read off the framed trace. */
  lemma FramedLookup(hooks: Hooks, engine: Engine, found: Result<Option<ScriptInfo>, Error>, r: Result<bool, Error>, events: seq<Event>)
    requires AfterLookup(hooks, engine, found, r, events)
    ensures var trace := [Borrowed(engine)] + events + [Returned(engine)];
      && BorrowedAndReturnedOnce(trace, engine)
      && AfterLookup(hooks, engine, found, r, trace[1..|trace| - 1])
      && (r == Success(false) ==> |trace| >= 3 && trace[1].SetHeader? && trace[1].name == USE_SCRIPT_HANDLER_HEAD)
      && forall i :: 0 <= i < |trace| && trace[i].Write? ==>
        && i == 3 && trace[2] == SetContentType(JSON_CONTENT_TYPE) && r == Success(false) && !hooks.committed
        && exists v :: !hooks.resIsEmpty(v) && hooks.serializeRes(v) == Success(trace[i].body)
  {
    AfterLookupShape(hooks, engine, found, r, events);
    Framed(engine, events);
    var trace := [Borrowed(engine)] + events + [Returned(engine)];
    forall i | 0 <= i < |trace| && trace[i].Write?
      ensures && i == 3 && trace[2] == SetContentType(JSON_CONTENT_TYPE) && r == Success(false) && !hooks.committed
        && exists v :: !hooks.resIsEmpty(v) && hooks.serializeRes(v) == Success(trace[i].body)
    {
      assert events[i - 1].Write?;
    }
  }

  /**
   * Whatever the lookup gave, the engine-backed part causes no pool traffic
   * and sets no status; `false` comes with the handler header first; and a
   * body is written only third, after the JSON content type, as the
   * serialisation of a non-empty result on an uncommitted response.
   */
  lemma AfterLookupShape(hooks: Hooks, engine: Engine, found: Result<Option<ScriptInfo>, Error>, r: Result<bool, Error>, events: seq<Event>)
    requires AfterLookup(hooks, engine, found, r, events)
    ensures forall i :: 0 <= i < |events| ==> !events[i].Borrowed? && !events[i].Returned? && !events[i].SetStatus?
    ensures r == Success(false) ==> |events| >= 1 && events[0].SetHeader? && events[0].name == USE_SCRIPT_HANDLER_HEAD
    ensures forall i :: 0 <= i < |events| && events[i].Write? ==>
      && i == 2 && events[1] == SetContentType(JSON_CONTENT_TYPE) && r == Success(false) && !hooks.committed
      && exists v :: !hooks.resIsEmpty(v) && hooks.serializeRes(v) == Success(events[i].body)
  {
    if found.Success? && found.value.Some? && !IsBlank(found.value.value.path) && !IsBlank(found.value.value.methodName) {
      var info := found.value.value;
      var loaded := hooks.getScriptObject(engine, info);
      if loaded.Success? && loaded.value.Some? {
        var outcome := hooks.doHandle(loaded.value.value);
        if outcome.Success? && outcome.value.breakHandle != Some(true) && !hooks.resIsEmpty(outcome.value.res) && !hooks.committed {
          var v := outcome.value.res;
          assert forall i :: 0 <= i < |events| && events[i].Write? ==> hooks.serializeRes(v) == Success(events[i].body);
        }
      }
    }
  }

  /**
   * `false` means a script really handled the request: the lookup found a
   * script, it loaded, its function ran without asking to break.
   */
  lemma HandledOnlyByScript(hooks: Hooks, engine: Engine, found: Result<Option<ScriptInfo>, Error>, r: Result<bool, Error>, events: seq<Event>)
    requires AfterLookup(hooks, engine, found, r, events)
    requires r == Success(false)
    ensures found.Success? && found.value.Some?
    ensures hooks.getScriptObject(engine, found.value.value).Success? && hooks.getScriptObject(engine, found.value.value).value.Some?
    ensures var outcome := hooks.doHandle(hooks.getScriptObject(engine, found.value.value).value.value);
      outcome.Success? && outcome.value.breakHandle != Some(true)
  {
  }

  /**
   * When no script file exists on the engine, nothing is written and the
   * request is never handled: it is left to Spring unless the parse was
   * out of range.
   */
  lemma {:induction false} NoFileLeavesRequestToSpring(config: Config, hooks: Hooks, engine: Engine, requestPath: string, r: Result<bool, Error>, events: seq<Event>)
    requires forall path :: !hooks.fileExists(engine, path)
    requires AfterLookup(hooks, engine, Resolve(Locate(config.prefix, requestPath), EngineFileExists(hooks, engine)), r, events)
    ensures events == [] && r != Success(false)
    ensures r.Success? ==> r == Success(true)
  {
    var lookup := Locate(config.prefix, requestPath);
    if lookup.Candidate? {
      assert !EngineFileExists(hooks, engine)(lookup.filePath);
    }
  }

  /** The base class's `doHandle` never asks to break: its outcome is never `true`. */
  lemma DefaultHandleNeverBreaks(hooks: Hooks, callMember: (ScriptObject, string) -> Result<ScriptValue, Error>,
                                 info: ScriptInfo, handle: ScriptHandle, r: Result<bool, Error>, events: seq<Event>)
    requires hooks.doHandle(handle) == DefaultDoHandle(callMember, handle)
    requires Handled(hooks, info, handle, r, events)
    ensures r != Success(true)
    ensures r.Success? ==> |events| >= 1 && events[0] == HandlerHeader(info)
  {
  }

  /**
   * With the base methods, a script that `require` loads as null is not
   * left to Spring: the header is set, then `callMember` on null throws.
   */
  lemma NullScriptFailsAfterHeader(hooks: Hooks, require: (Engine, string) -> Result<Option<ScriptObject>, Error>,
                                   callMember: (ScriptObject, string) -> Result<ScriptValue, Error>,
                                   engine: Engine, info: ScriptInfo, r: Result<bool, Error>, events: seq<Event>)
    requires !IsBlank(info.path) && !IsBlank(info.methodName)
    requires hooks.getScriptObject(engine, info) == DefaultGetScriptObject(require, engine, info)
    requires require(engine, info.path) == Success(None)
    requires hooks.doHandle(ScriptHandle(None, info.methodName)) == DefaultDoHandle(callMember, ScriptHandle(None, info.methodName))
    requires AfterLookup(hooks, engine, Success(Some(info)), r, events)
    ensures r == Failure(NullPointer) && events == [HandlerHeader(info)]
  {
    assert hooks.getScriptObject(engine, info) == Success(Some(ScriptHandle(None, info.methodName)));
  }

  /** Events with no pool traffic of their own, framed by a borrow and a return of `engine`. */
  lemma Framed(engine: Engine, events: seq<Event>)
    requires forall i :: 0 <= i < |events| ==> !events[i].Borrowed? && !events[i].Returned?
    ensures var trace := [Borrowed(engine)] + events + [Returned(engine)];
      && |trace| == |events| + 2
      && BorrowedAndReturnedOnce(trace, engine)
      && trace[1..|trace| - 1] == events
      && forall i :: 0 < i < |trace| - 1 ==> trace[i] == events[i - 1]
  {
    var trace := [Borrowed(engine)] + events + [Returned(engine)];
    assert forall i :: 0 < i < |trace| - 1 ==> trace[i] == events[i - 1];
    assert trace[1..|trace| - 1] == events;
  }
}
