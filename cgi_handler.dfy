/**
 * The CGI gateway of srcs/cgi_handler.cpp: whether a path is served by a script, which
 * interpreter runs it, the environment the script receives, and how the script's outcome
 * becomes a response. Spawning the script (pipes, fork, execve, reading its output, waitpid)
 * is outside the model: its outcome is given by an `exec` parameter that maps what the
 * server passes to the script to what comes back.
 */
module CgiGateway {
  import opened Wrappers
  import opened Strings
  import opened Configuration
  import opened Responses
  import opened Requests

  // ---------------------------------------------------------------------------------------
  // Choosing the script and its interpreter

  /** isCgiRequest: a location is given and the path's extension is one of its cgi_ext. */
  predicate CgiRequest(path: string, location: Option<Location>) {
    && location.Some?
    && Extension(path).Some?
    && Extension(path).value in location.value.cgiExt
  }

  /** isCgiRequest, with its scan of the location's extension list. */
  method IsCgiRequest(path: string, location: Option<Location>) returns (isCgi: bool)
    ensures isCgi == CgiRequest(path, location)
  {
    if location.None? {
      return false;
    }
    var pos := LastIndexOf(path, '.');
    if pos.None? {
      return false;
    }
    var extension := path[pos.value..];
    var exts := location.value.cgiExt;
    for i := 0 to |exts|
      invariant extension !in exts[..i]
    {
      if exts[i] == extension {
        return true;
      }
    }
    assert exts[..|exts|] == exts;
    return false;
  }

  /** A script named `base + ext` goes to CGI exactly when the location lists `ext`. */
  lemma CgiRequestSuffix(base: string, ext: string, location: Location)
    requires |ext| > 0 && ext[0] == '.' && '.' !in ext[1..]
    ensures CgiRequest(base + ext, Some(location)) <==> ext in location.cgiExt
  {
    ExtensionAppend(base, ext);
  }

  /**
   * The interpreter paired by position with the first entry of `exts` equal to `extension`,
   * looking only at the positions both lists have; "" when there is none.
   */
  function PairedPath(extension: string, exts: seq<string>, paths: seq<string>): string
    decreases |exts|
  {
    if |exts| == 0 || |paths| == 0 then ""
    else if exts[0] == extension then paths[0]
    else PairedPath(extension, exts[1..], paths[1..])
  }

  /** getCgiInterpreter as a function. */
  function Interpreter(extension: string, location: Option<Location>): string {
    if location.None? then "" else PairedPath(extension, location.value.cgiExt, location.value.cgiPath)
  }

  /** The first position listing `extension`, if both lists reach it, names the interpreter. */
  lemma {:induction false} PairedPathAt(extension: string, exts: seq<string>, paths: seq<string>, i: nat)
    requires i < |exts| && i < |paths| && exts[i] == extension
    requires forall j :: 0 <= j < i ==> exts[j] != extension
    ensures PairedPath(extension, exts, paths) == paths[i]
    decreases i
  {
    if i > 0 {
      assert exts[0] != extension;
      PairedPathAt(extension, exts[1..], paths[1..], i - 1);
    }
  }

  /** An extension listed only beyond the end of the interpreter list has no interpreter. */
  lemma {:induction false} PairedPathMissing(extension: string, exts: seq<string>, paths: seq<string>)
    requires forall j :: 0 <= j < |exts| && j < |paths| ==> exts[j] != extension
    ensures PairedPath(extension, exts, paths) == ""
    decreases |exts|
  {
    if |exts| > 0 && |paths| > 0 {
      assert exts[0] != extension;
      PairedPathMissing(extension, exts[1..], paths[1..]);
    }
  }

  /** getCgiInterpreter, with its scan over the positions both lists have. */
  method GetCgiInterpreter(extension: string, location: Option<Location>) returns (interpreter: string)
    ensures interpreter == Interpreter(extension, location)
  {
    if location.None? {
      return "";
    }
    var exts, paths := location.value.cgiExt, location.value.cgiPath;
    var i := 0;
    while i < |exts| && i < |paths|
      invariant 0 <= i <= |exts| && i <= |paths|
      invariant PairedPath(extension, exts[i..], paths[i..]) == PairedPath(extension, exts, paths)
    {
      if exts[i] == extension {
        return paths[i];
      }
      assert exts[i..][1..] == exts[i + 1..] && paths[i..][1..] == paths[i + 1..];
      i := i + 1;
    }
    return "";
  }

  // ---------------------------------------------------------------------------------------
  // What the script is given

  /** What the script reads on its standard input: the body of a POST, nothing otherwise. */
  function ScriptInput(req: RequestData): (r: string)
    ensures r == (if req.verb == "POST" then req.body else "")
  {
    if req.verb == "POST" && req.body != "" then req.body else ""
  }

  /** One character of a header's variable name: '-' becomes '_', letters are upper-cased. */
  function EnvChar(c: char): (r: char)
    ensures r != '-' && !('a' <= r <= 'z')
    ensures c == '-' ==> r == '_'
    ensures 'a' <= c <= 'z' ==> r as int == c as int - 32
    ensures c != '-' && !('a' <= c <= 'z') ==> r == c
  {
    if c == '-' then '_' else Upper(c)
  }

  /** The name of a header's variable: every character rewritten by EnvChar. */
  function EnvName(name: string): (r: string)
    ensures |r| == |name|
    ensures forall i :: 0 <= i < |r| ==> r[i] != '-' && !('a' <= r[i] <= 'z')
    ensures forall i :: 0 <= i < |r| && name[i] == '-' ==> r[i] == '_'
    ensures forall i :: 0 <= i < |r| && 'a' <= name[i] <= 'z' ==> r[i] as int == name[i] as int - 32
    ensures forall i :: 0 <= i < |r| && name[i] != '-' && !('a' <= name[i] <= 'z') ==> r[i] == name[i]
  {
    seq(|name|, i requires 0 <= i < |name| => EnvChar(name[i]))
  }

  /** The "HTTP_" prefix is unchanged by the rewriting: only the header name is. */
  lemma EnvNameHttp(name: string)
    ensures EnvName("HTTP_" + name) == "HTTP_" + EnvName(name)
  {
    var l := "HTTP_" + name;
    var r := "HTTP_" + EnvName(name);
    forall i | 0 <= i < |l|
      ensures EnvName(l)[i] == r[i]
    {
      if i >= 5 {
        assert l[i] == name[i - 5];
      }
    }
  }

  /** The variables set for every script. */
  function BaseVariables(req: RequestData, scriptPath: string, serverName: string, port: int): seq<string> {
    [ "GATEWAY_INTERFACE=CGI/1.1",
      "SERVER_SOFTWARE=" + SERVER_SOFTWARE,
      "SERVER_PROTOCOL=HTTP/1.1",
      "REQUEST_METHOD=" + req.verb,
      "REQUEST_URI=" + req.path,
      "SCRIPT_NAME=" + scriptPath,
      "QUERY_STRING=",
      "SERVER_NAME=" + serverName,
      "SERVER_PORT=" + IntToString(port) ]
  }

  /** CONTENT_LENGTH and CONTENT_TYPE, each when the request has that (lower-case) header. */
  function ContentVariables(headers: map<string, string>): seq<string> {
    (if "content-length" in headers then ["CONTENT_LENGTH=" + headers["content-length"]] else [])
    + (if "content-type" in headers then ["CONTENT_TYPE=" + headers["content-type"]] else [])
  }

  /** The variable for one header. */
  function HeaderVariable(name: string, value: string): string {
    EnvName("HTTP_" + name) + "=" + value
  }

  /** One variable per key of `keys`, in that order. */
  function HeaderVariables(headers: map<string, string>, keys: seq<string>): (r: seq<string>)
    requires forall k :: k in keys ==> k in headers
    ensures |r| == |keys|
    ensures forall i :: 0 <= i < |keys| ==> r[i] == HeaderVariable(keys[i], headers[keys[i]])
  {
    if |keys| == 0 then []
    else
      var init := keys[..|keys| - 1];
      assert forall k :: k in init ==> k in keys;
      HeaderVariables(headers, init) + [HeaderVariable(keys[|keys| - 1], headers[keys[|keys| - 1]])]
  }

  lemma HeaderVariablesSnoc(headers: map<string, string>, keys: seq<string>, n: nat)
    requires n < |keys| && forall k :: k in keys ==> k in headers
    ensures keys[n] in headers
    ensures HeaderVariables(headers, keys[..n + 1])
      == HeaderVariables(headers, keys[..n]) + [HeaderVariable(keys[n], headers[keys[n]])]
  {
    assert keys[..n + 1][..n] == keys[..n];
  }

  /** setupCgiEnvironment without the server's own environment: the fixed variables, the
      content variables, then one variable per header in std::map key order. */
  function Environment(req: RequestData, scriptPath: string, serverName: string, port: int): seq<string> {
    BaseVariables(req, scriptPath, serverName, port)
    + ContentVariables(req.headers)
    + HeaderVariables(req.headers, SortedKeys(req.headers.Keys))
  }

  /** Nine fixed variables, the content ones, and exactly one per request header. */
  lemma EnvironmentSize(req: RequestData, scriptPath: string, serverName: string, port: int)
    ensures |Environment(req, scriptPath, serverName, port)|
      == 9 + |ContentVariables(req.headers)| + |req.headers|
  {
  }

  /** Every request header is passed to the script as its HTTP_ variable. */
  lemma EnvironmentHasHeader(req: RequestData, scriptPath: string, serverName: string, port: int, name: string)
    requires name in req.headers
    ensures "HTTP_" + EnvName(name) + "=" + req.headers[name] in Environment(req, scriptPath, serverName, port)
  {
    var keys := SortedKeys(req.headers.Keys);
    var i :| 0 <= i < |keys| && keys[i] == name;
    var vars := HeaderVariables(req.headers, keys);
    EnvNameHttp(name);
    var env := Environment(req, scriptPath, serverName, port);
    var pre := BaseVariables(req, scriptPath, serverName, port) + ContentVariables(req.headers);
    assert env[|pre| + i] == vars[i];
  }

  /** setupCgiEnvironment: the pushes and the character loop over each header's name. */
  method SetupCgiEnvironment(req: RequestData, scriptPath: string, serverName: string, port: int)
    returns (env: seq<string>)
    ensures env == Environment(req, scriptPath, serverName, port)
  {
    env := [];
    env := env + ["GATEWAY_INTERFACE=CGI/1.1"];
    env := env + ["SERVER_SOFTWARE=" + SERVER_SOFTWARE];
    env := env + ["SERVER_PROTOCOL=HTTP/1.1"];
    env := env + ["REQUEST_METHOD=" + req.verb];
    env := env + ["REQUEST_URI=" + req.path];
    env := env + ["SCRIPT_NAME=" + scriptPath];
    env := env + ["QUERY_STRING="];
    env := env + ["SERVER_NAME=" + serverName];
    env := env + ["SERVER_PORT=" + IntToString(port)];
    assert env == BaseVariables(req, scriptPath, serverName, port);
    ghost var base := env;
    if "content-length" in req.headers {
      env := env + ["CONTENT_LENGTH=" + req.headers["content-length"]];
    }
    if "content-type" in req.headers {
      env := env + ["CONTENT_TYPE=" + req.headers["content-type"]];
    }
    assert env == base + ContentVariables(req.headers);
    var vars := HeaderLoop(req.headers, SortedKeys(req.headers.Keys));
    env := env + vars;
  }

  /** The loop of setupCgiEnvironment over the headers, visiting `keys` in order. */
  method HeaderLoop(headers: map<string, string>, keys: seq<string>) returns (vars: seq<string>)
    requires forall k :: k in keys ==> k in headers
    ensures vars == HeaderVariables(headers, keys)
  {
    vars := [];
    for n := 0 to |keys|
      invariant vars == HeaderVariables(headers, keys[..n])
    {
      var name := keys[n];
      var key := EnvKey(name);
      HeaderVariablesSnoc(headers, keys, n);
      vars := vars + [key + "=" + headers[name]];
    }
    assert keys[..|keys|] == keys;
  }

  /** The loop of setupCgiEnvironment that rewrites "HTTP_" + name in place. */
  method EnvKey(name: string) returns (key: string)
    ensures key == EnvName("HTTP_" + name)
  {
    ghost var original := "HTTP_" + name;
    key := "HTTP_" + name;
    for i := 0 to |key|
      invariant |key| == |original|
      invariant forall j :: 0 <= j < i ==> key[j] == EnvChar(original[j])
      invariant forall j :: i <= j < |key| ==> key[j] == original[j]
    {
      if key[i] == '-' {
        key := key[i := '_'];
      } else {
        key := key[i := Upper(key[i])];
      }
    }
  }

  // ---------------------------------------------------------------------------------------
  // From the script's outcome to a response

  /** What executeCgi hands to the script: interpreter, script, environment and input. */
  datatype Invocation = Invocation(interpreter: string, scriptPath: string, env: seq<string>, stdin: string)

  /** How a spawn ends: a pipe or the fork fails, or the script exits with a wait status
      after writing `output`. A failed execve is a child that exits with status 1. */
  datatype ScriptRun = PipeFailed | ForkFailed | Exited(status: int, output: string)

  /** WEXITSTATUS: bits 8 to 15 of the wait status. */
  function ExitStatus(status: int): (r: int)
    ensures 0 <= r < 256
  {
    (status / 256) % 256
  }

  /** A child that called exit(code) reports `code`, whatever the low byte holds. */
  lemma ExitStatusOf(code: nat, low: nat)
    requires code < 256 && low < 256
    ensures ExitStatus(code * 256 + low) == code
  {
    assert (code * 256 + low) / 256 == code;
  }

  /** The 500 page executeCgi returns on each failure, `detail` naming it. */
  function ServerError(detail: string): ResponseData {
    Initial
      .WithStatus(500, "Internal Server Error")
      .WithContentType("text/html")
      .WithBody("<html><body><h1>500 Internal Server Error</h1><p>" + detail + "</p></body></html>")
  }

  /** A header line of the script's output without its final '\r'. */
  function DropCR(line: string): string {
    if |line| > 0 && line[|line| - 1] == '\r' then line[..|line| - 1] else line
  }

  /** `key` is what precedes the first ':' of `line`, and `value` what follows it with the
      spaces at both ends removed. */
  predicate FieldSplit(line: string, key: string, value: string) {
    && ':' !in key && |key| < |line| && line[|key|] == ':'
    && line[..|key|] == key
    && value == SpaceTrimmed(line[|key| + 1..])
  }

  /** A header line of the output split at its first ':'; None without a colon. */
  function CgiField(line: string): (r: Option<Field>)
    ensures r.None? <==> ':' !in line
    ensures r.Some? ==> FieldSplit(line, r.value.0, r.value.1)
  {
    match IndexOf(line, ":", 0)
    case None =>
      NoColon(line);
      None
    case Some(c) =>
      FirstColon(line, c);
      Some((line[..c], SpaceTrimmed(line[c + 1..])))
  }

  /** One header line applied to the response. */
  function ApplyHeaderLine(d: ResponseData, line: string): ResponseData {
    match CgiField(DropCR(line))
    case None => d
    case Some(f) => d.WithHeader(f.0, f.1)
  }

  /** The getline loop over the header section: each line until the first empty one. */
  function ApplyHeaderLines(d: ResponseData, lines: seq<string>): (r: ResponseData)
    ensures r.statusCode == d.statusCode && r.statusMessage == d.statusMessage && r.body == d.body
    ensures d.headers.Keys <= r.headers.Keys
    decreases |lines|
  {
    if |lines| == 0 || lines[0] == "" then d
    else ApplyHeaderLines(ApplyHeaderLine(d, lines[0]), lines[1..])
  }

  /** The response built from the output of a script that exited with status 0. */
  function CgiOutput(output: string): ResponseData {
    match BlankLineEnd(output, 0)
    case None =>
      Initial.WithStatus(200, "OK").WithContentType("text/html").WithBody(output)
    case Some(headerEnd) =>
      var base := Initial.WithStatus(200, "OK").WithBody(output[headerEnd..]);
      ApplyHeaderLines(base, Lines(output[..headerEnd]))
  }

  /** The exit status decides first: any status but 0 is a 500, whatever was written. */
  function Finished(status: int, output: string): ResponseData {
    if ExitStatus(status) != 0 then ServerError("CGI script execution failed") else CgiOutput(output)
  }

  /** executeCgi: the response it serialises for `scriptPath`. */
  function CgiResponse(
    scriptPath: string, req: RequestData, location: Option<Location>,
    serverName: string, port: int, exec: Invocation -> ScriptRun): ResponseData
  {
    match Extension(scriptPath)
    case None => ServerError("No file extension")
    case Some(extension) =>
      var interpreter := Interpreter(extension, location);
      if interpreter == "" then ServerError("No CGI interpreter found")
      else
        var env := Environment(req, scriptPath, serverName, port);
        match exec(Invocation(interpreter, scriptPath, env, ScriptInput(req)))
        case PipeFailed => ServerError("Pipe creation failed")
        case ForkFailed => ServerError("Fork failed")
        case Exited(status, output) => Finished(status, output)
  }

  /** A script with an interpreter is run with that interpreter, the script, the environment
      and the input, and how it exits decides the response. */
  lemma CgiInvocation(
    scriptPath: string, req: RequestData, location: Option<Location>,
    serverName: string, port: int, exec: Invocation -> ScriptRun, base: string, ext: string,
    status: int, output: string)
    requires scriptPath == base + ext && |ext| > 0 && ext[0] == '.' && '.' !in ext[1..]
    requires Interpreter(ext, location) != ""
    requires exec(Invocation(Interpreter(ext, location), scriptPath,
      Environment(req, scriptPath, serverName, port), ScriptInput(req))) == Exited(status, output)
    ensures CgiResponse(scriptPath, req, location, serverName, port, exec) == Finished(status, output)
  {
    ExtensionAppend(base, ext);
  }

  /** Without an extension or an interpreter for it nothing is spawned: the 500 page does not
      depend on what running a script would have done. */
  lemma NoInterpreterNoSpawn(
    scriptPath: string, req: RequestData, location: Option<Location>,
    serverName: string, port: int, exec1: Invocation -> ScriptRun, exec2: Invocation -> ScriptRun)
    requires Extension(scriptPath).None? || Interpreter(Extension(scriptPath).value, location) == ""
    ensures CgiResponse(scriptPath, req, location, serverName, port, exec1)
      == CgiResponse(scriptPath, req, location, serverName, port, exec2)
    ensures CgiResponse(scriptPath, req, location, serverName, port, exec1).statusCode == 500
    ensures '.' !in scriptPath ==>
      CgiResponse(scriptPath, req, location, serverName, port, exec1) == ServerError("No file extension")
  {
  }

  /** A script that exits with a status other than 0 gives the 500 page whatever it wrote. */
  lemma FailedScript(status: int, output1: string, output2: string)
    requires ExitStatus(status) != 0
    ensures Finished(status, output1) == Finished(status, output2)
    ensures Finished(status, output1).statusCode == 500
    ensures Finished(status, output1) == ServerError("CGI script execution failed")
  {
  }

  /** With a blank line, the status is 200 and the body is everything after the first one. */
  lemma CgiBodyAfterBlankLine(output: string)
    requires BlankLineEnd(output, 0).Some?
    ensures CgiOutput(output).statusCode == 200 && CgiOutput(output).statusMessage == "OK"
    ensures CgiOutput(output).body == output[BlankLineEnd(output, 0).value..]
  {
  }

  /** Without a blank line the whole output is an HTML body. */
  lemma CgiOutputWithoutHeaders(output: string)
    requires BlankLineEnd(output, 0).None?
    ensures CgiOutput(output) == ResponseData(200, "OK", map["Content-Type" := "text/html"], output)
  {
  }

  /** Header lines are read up to the first empty line and no further. */
  lemma {:induction false} HeaderLinesStop(d: ResponseData, lines: seq<string>, k: nat)
    requires k < |lines| && lines[k] == ""
    ensures ApplyHeaderLines(d, lines) == ApplyHeaderLines(d, lines[..k])
    decreases k
  {
    if k > 0 {
      assert lines[..k][0] == lines[0] && lines[..k][1..] == lines[1..][..k - 1];
      HeaderLinesStop(ApplyHeaderLine(d, lines[0]), lines[1..], k - 1);
    }
  }

  /** Lines without a colon set no header. */
  lemma {:induction false} ColonlessLines(d: ResponseData, lines: seq<string>)
    requires forall i :: 0 <= i < |lines| ==> ':' !in lines[i]
    ensures ApplyHeaderLines(d, lines) == d
    decreases |lines|
  {
    if |lines| > 0 && lines[0] != "" {
      var l := lines[0];
      assert ':' !in DropCR(l) by {
        if |l| > 0 && l[|l| - 1] == '\r' {
          assert forall j :: 0 <= j < |l| - 1 ==> l[..|l| - 1][j] == l[j];
        }
      }
      ColonlessLines(d, lines[1..]);
    }
  }

  /** A "name:value" line sets `name` to the value with the spaces at its ends removed. */
  lemma FieldLine(d: ResponseData, name: string, value: string)
    requires ':' !in name && (|value| == 0 || value[|value| - 1] != '\r')
    ensures ApplyHeaderLine(d, name + ":" + value) == d.WithHeader(name, SpaceTrimmed(value))
  {
    var line := name + ":" + value;
    assert DropCR(line) == line;
    assert OccursAt(line, ":", |name|) by {
      assert line[|name|..|name| + 1] == ":";
    }
    forall j | 0 <= j < |name|
      ensures !OccursAt(line, ":", j)
    {
      assert line[j..j + 1] == [name[j]];
    }
    IndexOfIs(line, ":", 0, |name|);
    assert line[..|name|] == name;
    assert line[|name| + 1..] == value;
  }

  lemma HeaderLinesStep(d: ResponseData, lines: seq<string>, i: nat)
    requires i < |lines| && lines[i] != ""
    ensures ApplyHeaderLines(d, lines[i..]) == ApplyHeaderLines(ApplyHeaderLine(d, lines[i]), lines[i + 1..])
  {
    assert lines[i..][0] == lines[i] && lines[i..][1..] == lines[i + 1..];
  }

  /** The Response object executeCgi fills from the output, as the source does. */
  method TranslateOutput(output: string) returns (d: ResponseData)
    ensures d == CgiOutput(output)
  {
    var response := new Response();
    var headerEnd := BlankLineEnd(output, 0);
    if headerEnd.None? {
      response.SetStatus(200, "OK");
      response.SetContentType("text/html");
      response.SetBody(output);
      return response.Data();
    }
    var headers := output[..headerEnd.value];
    response.SetStatus(200, "OK");
    response.SetBody(output[headerEnd.value..]);
    ApplyLines(response, Lines(headers));
    d := response.Data();
  }

  /** The getline loop of executeCgi over the header section. */
  method ApplyLines(response: Response, lines: seq<string>)
    modifies response
    ensures response.Data() == ApplyHeaderLines(old(response.Data()), lines)
  {
    ghost var start := response.Data();
    var i := 0;
    while i < |lines| && lines[i] != ""
      invariant 0 <= i <= |lines|
      invariant ApplyHeaderLines(response.Data(), lines[i..]) == ApplyHeaderLines(start, lines)
    {
      ghost var before := response.Data();
      ApplyLine(response, lines[i]);
      HeaderLinesStep(before, lines, i);
      i := i + 1;
    }
  }

  /** One pass of that loop: drop a final '\r', split at the first ':', trim and set. */
  method ApplyLine(response: Response, line: string)
    modifies response
    ensures response.Data() == ApplyHeaderLine(old(response.Data()), line)
  {
    var l := line;
    if |l| > 0 && l[|l| - 1] == '\r' {
      l := l[..|l| - 1];
    }
    assert l == DropCR(line);
    var colonPos := IndexOf(l, ":", 0);
    if colonPos.Some? {
      var key := l[..colonPos.value];
      var value := TrimSpaces(l[colonPos.value + 1..]);
      response.SetHeader(key, value);
    }
  }
}
