/**
 * The request handler of srcs/http_handler.cpp: the method check and dispatch, redirects,
 * static files with index files and directory listings, the plain POST reply, multipart
 * uploads and DELETE in the uploads directory. Each handler is a function from the server
 * configuration, the request and the file system to the Response it fills; the file system
 * is a parameter that answers stat, open-and-read, readdir, unlink, mkdir and write.
 */
module HttpHandling {
  import opened Wrappers
  import opened Strings
  import opened Configuration
  import opened Responses
  import opened Requests

  // ---------------------------------------------------------------------------------------
  // The file system

  /** What S_ISREG and S_ISDIR tell apart. */
  datatype FileKind = RegularFile | Directory | OtherKind

  /** The parts of `struct stat` the handler reads. */
  datatype FileStat = FileStat(kind: FileKind, size: int)

  /**
   * The answers of the file system: stat (None when it fails), opening and reading a whole
   * file (None when it cannot be opened), the names readdir yields in order (None when
   * opendir fails), and whether unlink, mkdir and writing a file succeed.
   */
  datatype FileSystem = FileSystem(
    stat: string -> Option<FileStat>,
    read: string -> Option<string>,
    entries: string -> Option<seq<string>>,
    unlink: string -> bool,
    mkdir: string -> bool,
    write: (string, string) -> bool)

  // ---------------------------------------------------------------------------------------
  // Pages and canned responses

  /** generateErrorPage. */
  function ErrorPage(code: int, message: string): string {
    ErrorPageHead(code) + message + ERROR_PAGE_TAIL
  }

  function ErrorPageHead(code: int): string {
    "<html><head><title>Error " + IntToString(code) + "</title></head><body>"
    + "<h1>Error " + IntToString(code) + "</h1>" + "<p>"
  }

  const ERROR_PAGE_TAIL := "</p>" + "<hr><p>Webserv/1.0</p></body></html>"

  /** The message can be read back from the page: different messages give different pages. */
  lemma ErrorPageMessage(code: int, message: string)
    ensures var n := |ErrorPageHead(code)|;
      n + |message| <= |ErrorPage(code, message)|
      && ErrorPage(code, message)[n..n + |message|] == message
  {
    var n := |ErrorPageHead(code)|;
    var page := ErrorPage(code, message);
    forall i | 0 <= i < |message|
      ensures page[n + i] == message[i]
    {
      assert page == ErrorPageHead(code) + message + ERROR_PAGE_TAIL;
    }
  }

  /** A response whose status and content type are set and whose body is set unless the
      request is a HEAD. */
  function Page(code: int, reason: string, contentType: string, body: string, head: bool): (r: ResponseData)
    ensures r.statusCode == code && r.statusMessage == reason
  {
    var r := Initial.WithStatus(code, reason).WithContentType(contentType);
    if head then r else r.WithBody(body)
  }

  /** An HTML error page, body included. */
  function HtmlError(code: int, reason: string, message: string): ResponseData {
    Page(code, reason, "text/html", ErrorPage(code, message), false)
  }

  function Json(code: int, reason: string, json: string): ResponseData {
    Page(code, reason, "application/json", json, false)
  }

  // ---------------------------------------------------------------------------------------
  // MIME types

  /** The extensions getMimeType knows. */
  const KNOWN_EXTENSIONS: set<string> :=
    {".html", ".htm", ".css", ".js", ".json", ".jpg", ".jpeg", ".png", ".gif", ".svg", ".txt", ".xml", ".pdf"}

  const OCTET_STREAM := "application/octet-stream"

  /** The table of getMimeType, from an extension with its dot. */
  function MimeFor(extension: string): string {
    if extension == ".html" || extension == ".htm" then "text/html"
    else if extension == ".css" then "text/css"
    else if extension == ".js" then "application/javascript"
    else if extension == ".json" then "application/json"
    else if extension == ".jpg" || extension == ".jpeg" then "image/jpeg"
    else if extension == ".png" then "image/png"
    else if extension == ".gif" then "image/gif"
    else if extension == ".svg" then "image/svg+xml"
    else if extension == ".txt" then "text/plain"
    else if extension == ".xml" then "application/xml"
    else if extension == ".pdf" then "application/pdf"
    else OCTET_STREAM
  }

  /** getMimeType: the table entry for the file's extension. */
  function GetMimeType(filename: string): string {
    match Extension(filename)
    case None => OCTET_STREAM
    case Some(extension) => MimeFor(extension)
  }

  /** Exactly the known extensions have a type of their own. */
  lemma MimeForKnown(extension: string)
    ensures MimeFor(extension) != OCTET_STREAM <==> extension in KNOWN_EXTENSIONS
  {
  }

  /** The type of a file follows from the suffix after its last dot. */
  lemma MimeTypeOfName(base: string, extension: string)
    requires |extension| > 0 && extension[0] == '.' && '.' !in extension[1..]
    ensures GetMimeType(base + extension) == MimeFor(extension)
  {
    ExtensionAppend(base, extension);
  }

  /** A name without a dot is served as application/octet-stream. */
  lemma MimeTypeWithoutDot(filename: string)
    requires '.' !in filename
    ensures GetMimeType(filename) == OCTET_STREAM
  {
  }

  // ---------------------------------------------------------------------------------------
  // Paths

  /** `dir` and `name` with one '/' between them unless `dir` already ends with one. */
  function DirJoin(dir: string, name: string): (r: string)
  {
    (if EndsWith(dir, "/") then dir else dir + "/") + name
  }

  /** The joined path starts with the directory, ends with the name, and exactly one '/'
      separates the two: one is added only when the directory does not end with one. */
  lemma DirJoinParts(dir: string, name: string)
    ensures var r := DirJoin(dir, name);
      && StartsWith(r, dir) && EndsWith(r, name)
      && |r| - |name| >= 1 && r[|r| - |name| - 1] == '/'
    ensures |DirJoin(dir, name)| == |dir| + |name| + (if EndsWith(dir, "/") then 0 else 1)
  {
    var r := DirJoin(dir, name);
    var d := if EndsWith(dir, "/") then dir else dir + "/";
    assert r == d + name;
    assert r[..|dir|] == d[..|dir|];
    assert r[|r| - |name|..] == name;
    assert r[|r| - |name| - 1] == d[|d| - 1];
  }

  /** The upload directory of handleDeleteRequest and handleFileUpload: the location's
      upload_dir, taken as it is when absolute and under the server root otherwise, or the
      root's "uploads" directory. */
  function UploadDir(root: string, location: Option<Location>): string {
    if location.Some? && location.value.uploadDir != "" then
      if location.value.uploadDir[0] == '/' then location.value.uploadDir
      else DirJoin(root, location.value.uploadDir)
    else DirJoin(root, "uploads")
  }

  /** The upload directory ends with the configured one, or with "uploads" when the location
      sets none; an absolute one is used unchanged. */
  lemma UploadDirEnds(root: string, location: Option<Location>)
    ensures location.Some? && location.value.uploadDir != "" ==>
      EndsWith(UploadDir(root, location), location.value.uploadDir)
    ensures location.Some? && location.value.uploadDir != "" && location.value.uploadDir[0] == '/' ==>
      UploadDir(root, location) == location.value.uploadDir
    ensures location.Some? && location.value.uploadDir != "" && location.value.uploadDir[0] != '/' ==>
      |UploadDir(root, location)| == |root| + |location.value.uploadDir| + (if EndsWith(root, "/") then 0 else 1)
    ensures location.None? || location.value.uploadDir == "" ==>
      EndsWith(UploadDir(root, location), "uploads")
  {
    if location.Some? && location.value.uploadDir != "" {
      var u := location.value.uploadDir;
      if u[0] == '/' {
        assert UploadDir(root, location)[|u| - |u|..] == u;
      } else {
        DirJoinParts(root, u);
      }
    } else {
      DirJoinParts(root, "uploads");
    }
  }

  /** serveFile's path: the root followed by the request path, less one of two leading
      slashes. */
  function FullPath(root: string, requestPath: string): string {
    var p := root + requestPath;
    if |p| >= 2 && p[0] == '/' && p[1] == '/' then p[1..] else p
  }

  // ---------------------------------------------------------------------------------------
  // Dispatch

  /** handleRequest: the allow-list of the request's location first, then the method. */
  function HandleRequest(config: Settings, req: RequestData, fs: FileSystem): ResponseData {
    var location := LocationFor(config.locations, req.path);
    if !MethodAllowed(req.verb, location) then HtmlError(405, "Method Not Allowed", "Method Not Allowed")
    else if req.verb == "GET" || req.verb == "HEAD" then HandleGet(config, req, location, fs)
    else if req.verb == "POST" then HandlePost(config, req, location, fs)
    else if req.verb == "DELETE" then HandleDelete(config, req, location, fs)
    else HtmlError(501, "Not Implemented", "Method Not Implemented")
  }

  /** A method the location does not allow is refused with 405 before anything else, and an
      allowed method the server does not implement gets 501. */
  lemma MethodCheckedFirst(config: Settings, req: RequestData, fs: FileSystem)
    ensures !MethodAllowed(req.verb, LocationFor(config.locations, req.path)) ==>
      HandleRequest(config, req, fs) == HtmlError(405, "Method Not Allowed", "Method Not Allowed")
    ensures req.verb !in {"GET", "HEAD", "POST", "DELETE"} ==>
      HandleRequest(config, req, fs).statusCode
        == if MethodAllowed(req.verb, LocationFor(config.locations, req.path)) then 501 else 405
  {
  }

  /** handleGetRequest: a location with a redirect answers 301 without looking at files. */
  function HandleGet(config: Settings, req: RequestData, location: Option<Location>, fs: FileSystem): ResponseData {
    if location.Some? && location.value.redirect != "" then Initial.WithRedirect(location.value.redirect, 301)
    else ServeFile(config, req.path, req, fs)
  }

  /** An allowed GET or HEAD under a redirecting location is answered by the redirect, the
      same whatever the file system holds. */
  lemma RedirectIgnoresFiles(config: Settings, req: RequestData, fs1: FileSystem, fs2: FileSystem)
    requires req.verb == "GET" || req.verb == "HEAD"
    requires var location := LocationFor(config.locations, req.path);
      MethodAllowed(req.verb, location) && location.Some? && location.value.redirect != ""
    ensures HandleRequest(config, req, fs1) == HandleRequest(config, req, fs2)
    ensures HandleRequest(config, req, fs1)
      == Initial.WithRedirect(LocationFor(config.locations, req.path).value.redirect, 301)
  {
  }

  /** handlePostRequest's test: a multipart body for a location with an upload directory. */
  predicate IsUpload(req: RequestData, location: Option<Location>) {
    Contains(req.Header("content-type"), "multipart/form-data") && location.Some? && location.value.uploadDir != ""
  }

  /** The page that acknowledges a POST that is not an upload. */
  function PostReceivedPage(bodyLength: nat): string {
    "<html><body><h1>POST request received</h1><p>Body length: " + NatToString(bodyLength) + " bytes</p></body></html>"
  }

  /** handlePostRequest: an upload goes to the upload handler; any other POST is
      acknowledged with its body length. */
  function HandlePost(config: Settings, req: RequestData, location: Option<Location>, fs: FileSystem): ResponseData {
    if IsUpload(req, location) then HandleFileUpload(config, req, location, fs)
    else Page(200, "OK", "text/html", PostReceivedPage(|req.body|), false)
  }

  /** A POST goes to the upload handler exactly when its content-type names
      multipart/form-data and its location has an upload directory; any other POST is
      answered 200 with the body's length, whatever the file system holds. */
  lemma PostDispatch(config: Settings, req: RequestData, location: Option<Location>, fs: FileSystem, fs2: FileSystem)
    ensures IndexOf(req.Header("content-type"), "multipart/form-data", 0).Some? && location.Some? && location.value.uploadDir != "" ==>
      HandlePost(config, req, location, fs) == HandleFileUpload(config, req, location, fs)
    ensures !(IndexOf(req.Header("content-type"), "multipart/form-data", 0).Some? && location.Some? && location.value.uploadDir != "") ==>
      && HandlePost(config, req, location, fs).statusCode == 200
      && HandlePost(config, req, location, fs) == HandlePost(config, req, location, fs2)
      && EndsWith(HandlePost(config, req, location, fs).body, NatToString(|req.body|) + " bytes</p></body></html>")
  {
    if !IsUpload(req, location) {
      var tail := NatToString(|req.body|) + " bytes</p></body></html>";
      var b := PostReceivedPage(|req.body|);
      assert b == "<html><body><h1>POST request received</h1><p>Body length: " + tail;
      assert HandlePost(config, req, location, fs).body == b;
      assert b[|b| - |tail|..] == tail;
    }
  }

  // ---------------------------------------------------------------------------------------
  // DELETE

  const DELETE_OUTSIDE := "{\"error\": \"File deletion only allowed in uploads directory\"}"
  const DELETE_INVALID := "{\"error\": \"Invalid filename\"}"

  /** handleDeleteRequest: only names under "/uploads/", without "..", are looked up, in the
      upload directory. */
  function HandleDelete(config: Settings, req: RequestData, location: Option<Location>, fs: FileSystem): ResponseData {
    var requestPath := req.path;
    var pos := IndexOf(requestPath, "/uploads/", 0);
    if pos != Some(0) then Json(403, "Forbidden", DELETE_OUTSIDE)
    else
      var filename := requestPath[9..];
      if filename == "" || Contains(filename, "..") then Json(400, "Bad Request", DELETE_INVALID)
      else DeleteFile(UploadDir(config.root, location) + "/" + filename, filename, fs)
  }

  /** The stat and unlink of handleDeleteRequest. */
  function DeleteFile(fullPath: string, filename: string, fs: FileSystem): ResponseData {
    match fs.stat(fullPath)
    case None => Json(404, "Not Found", "{\"error\": \"File not found\"}")
    case Some(st) =>
      if st.kind != RegularFile then Json(400, "Bad Request", "{\"error\": \"Cannot delete directories\"}")
      else if fs.unlink(fullPath) then
        Json(200, "OK", "{\"message\": \"File deleted successfully\", \"filename\": \"" + filename + "\"}")
      else Json(500, "Internal Server Error", "{\"error\": \"Failed to delete file\"}")
  }

  /** A path outside "/uploads/", or a name that is empty or holds "..", is refused before
      the file system is consulted. */
  lemma DeleteChecksFirst(config: Settings, req: RequestData, location: Option<Location>, fs1: FileSystem, fs2: FileSystem)
    ensures !StartsWith(req.path, "/uploads/") ==>
      HandleDelete(config, req, location, fs1) == Json(403, "Forbidden", DELETE_OUTSIDE)
    ensures StartsWith(req.path, "/uploads/") && (|req.path| == 9 || Contains(req.path[9..], "..")) ==>
      HandleDelete(config, req, location, fs1) == Json(400, "Bad Request", DELETE_INVALID)
    ensures !StartsWith(req.path, "/uploads/") || |req.path| == 9 || Contains(req.path[9..], "..") ==>
      HandleDelete(config, req, location, fs1) == HandleDelete(config, req, location, fs2)
  {
    FindAtZero(req.path, "/uploads/");
  }

  /** A name that passes the checks names the directory, a '/', and the name: 404 when that
      path does not exist, 400 when it is not a regular file, and otherwise the file is
      unlinked, 200 when that succeeds and 500 when it fails. */
  lemma DeleteTarget(config: Settings, req: RequestData, location: Option<Location>, fs: FileSystem, name: string)
    requires req.path == "/uploads/" + name && name != "" && !Contains(name, "..")
    ensures var st := fs.stat(UploadDir(config.root, location) + "/" + name);
      st.None? ==> HandleDelete(config, req, location, fs).statusCode == 404
    ensures var st := fs.stat(UploadDir(config.root, location) + "/" + name);
      st.Some? && st.value.kind != RegularFile ==> HandleDelete(config, req, location, fs).statusCode == 400
    ensures var st := fs.stat(UploadDir(config.root, location) + "/" + name);
      st.Some? && st.value.kind == RegularFile ==>
        HandleDelete(config, req, location, fs).statusCode
        == if fs.unlink(UploadDir(config.root, location) + "/" + name) then 200 else 500
  {
    FindAtZero(req.path, "/uploads/");
    assert req.path[..9] == "/uploads/";
    assert req.path[9..] == name;
  }

  // ---------------------------------------------------------------------------------------
  // Static files

  /** serveFile. */
  function ServeFile(config: Settings, requestPath: string, req: RequestData, fs: FileSystem): ResponseData {
    var fullPath := FullPath(config.root, requestPath);
    var head := req.verb == "HEAD";
    match fs.stat(fullPath)
    case None => HtmlError(404, "Not Found", "File Not Found")
    case Some(st) =>
      if st.kind == Directory then ServeDirectory(config, fullPath, requestPath, head, fs)
      else ServeRegular(fullPath, st, head, fs)
  }

  /** A directory: its index file when that is a regular file, else a listing or 403. */
  function ServeDirectory(config: Settings, fullPath: string, requestPath: string, head: bool, fs: FileSystem): ResponseData {
    var indexPath := DirJoin(fullPath, config.index);
    var indexStat := fs.stat(indexPath);
    if indexStat.Some? && indexStat.value.kind == RegularFile then ServeRegular(indexPath, indexStat.value, head, fs)
    else
      var location := LocationFor(config.locations, requestPath);
      if location.Some? && location.value.autoindex then
        Page(200, "OK", "text/html", DirectoryListing(requestPath, fs.entries(fullPath)), head)
      else Page(403, "Forbidden", "text/html", ErrorPage(403, "Directory listing forbidden"), head)
  }

  /** The index file wins over a listing whatever the location says; without one, a
      directory is listed with 200 exactly when its location turns autoindex on, and is 403
      otherwise. */
  lemma DirectoryIndexFirst(config: Settings, fullPath: string, requestPath: string, head: bool, fs: FileSystem)
    ensures var indexStat := fs.stat(DirJoin(fullPath, config.index));
      indexStat.Some? && indexStat.value.kind == RegularFile ==>
        ServeDirectory(config, fullPath, requestPath, head, fs)
        == ServeRegular(DirJoin(fullPath, config.index), indexStat.value, head, fs)
    ensures var indexStat := fs.stat(DirJoin(fullPath, config.index));
      var location := LocationFor(config.locations, requestPath);
      !(indexStat.Some? && indexStat.value.kind == RegularFile) ==>
        && (ServeDirectory(config, fullPath, requestPath, head, fs).statusCode == 200
            <==> location.Some? && location.value.autoindex)
        && (ServeDirectory(config, fullPath, requestPath, head, fs).statusCode in {200, 403})
  {
  }

  /** A file: its contents with the type its extension gives; for HEAD only its size, as
      Content-Length, and no body. */
  function ServeRegular(path: string, st: FileStat, head: bool, fs: FileSystem): ResponseData {
    match fs.read(path)
    case None => Page(403, "Forbidden", "text/html", ErrorPage(403, "Access Forbidden"), head)
    case Some(content) =>
      var sized := if head then Initial.WithHeader("Content-Length", IntToString(st.size)) else Initial;
      var r := sized.WithStatus(200, "OK").WithContentType(GetMimeType(path));
      if head then r else r.WithBody(content)
  }

  /** A missing file is 404 with its page, also for HEAD. */
  lemma MissingFile(config: Settings, requestPath: string, req: RequestData, fs: FileSystem)
    requires fs.stat(FullPath(config.root, requestPath)).None?
    ensures ServeFile(config, requestPath, req, fs) == HtmlError(404, "Not Found", "File Not Found")
  {
  }

  /** Whatever exists at the path, a HEAD response has no body. */
  lemma HeadHasNoBody(config: Settings, requestPath: string, req: RequestData, fs: FileSystem)
    requires req.verb == "HEAD" && fs.stat(FullPath(config.root, requestPath)).Some?
    ensures ServeFile(config, requestPath, req, fs).body == ""
  {
  }

  /** A regular file that cannot be read is 403; a readable one is served whole with 200 and
      its type, and a HEAD request gets its size as Content-Length instead of the contents. */
  lemma RegularFileServed(config: Settings, requestPath: string, req: RequestData, fs: FileSystem)
    requires var st := fs.stat(FullPath(config.root, requestPath));
      st.Some? && st.value.kind == RegularFile
    ensures var fullPath := FullPath(config.root, requestPath);
      var r := ServeFile(config, requestPath, req, fs);
      fs.read(fullPath).None? ==>
        && r.statusCode == 403
        && r.body == (if req.verb == "HEAD" then "" else ErrorPage(403, "Access Forbidden"))
    ensures fs.read(FullPath(config.root, requestPath)).Some? ==>
      var fullPath := FullPath(config.root, requestPath);
      var r := ServeFile(config, requestPath, req, fs);
      && r.statusCode == 200
      && r.headers["Content-Type"] == GetMimeType(fullPath)
      && (req.verb != "HEAD" ==> r.body == fs.read(fullPath).value && "Content-Length" !in r.headers)
      && (req.verb == "HEAD" ==> r.headers["Content-Length"] == IntToString(fs.stat(fullPath).value.size))
  {
  }

  // ---------------------------------------------------------------------------------------
  // Directory listings

  /** The list item for one directory entry; "." has none. */
  function ListingItem(requestPath: string, name: string): string {
    if name == "." then ""
    else "<li><a href=\"" + DirJoin(requestPath, name) + "\">" + name + "</a></li>"
  }

  /** The list items for the entries in readdir order. */
  function ListingItems(requestPath: string, names: seq<string>): string {
    if |names| == 0 then ""
    else ListingItems(requestPath, names[..|names| - 1]) + ListingItem(requestPath, names[|names| - 1])
  }

  /** generateDirectoryListing, given what readdir yields (None when opendir fails). */
  function DirectoryListing(requestPath: string, entries: Option<seq<string>>): string {
    "<html><head><title>Directory Listing</title></head><body>"
    + "<h1>Directory Listing for " + requestPath + "</h1><ul>"
    + (if entries.Some? then ListingItems(requestPath, entries.value) else "")
    + "</ul></body></html>"
  }

  /** The items of two runs of entries are the items of each, one after the other. */
  lemma {:induction false} ListingItemsAppend(requestPath: string, a: seq<string>, b: seq<string>)
    ensures ListingItems(requestPath, a + b) == ListingItems(requestPath, a) + ListingItems(requestPath, b)
    decreases |b|
  {
    if |b| > 0 {
      var b' := b[..|b| - 1];
      assert (a + b)[..|a + b| - 1] == a + b';
      ListingItemsAppend(requestPath, a, b');
    } else {
      assert a + b == a;
    }
  }

  /** The entry "." is left out of the listing wherever readdir yields it. */
  lemma ListingSkipsDot(requestPath: string, a: seq<string>, b: seq<string>)
    ensures ListingItems(requestPath, a + ["."] + b) == ListingItems(requestPath, a + b)
  {
    ListingItemsAppend(requestPath, a + ["."], b);
    assert (a + ["."])[..|a|] == a;
    assert ListingItems(requestPath, a + ["."]) == ListingItems(requestPath, a);
    ListingItemsAppend(requestPath, a, b);
  }

  lemma ListingItemsSnoc(requestPath: string, names: seq<string>, i: nat)
    requires i < |names|
    ensures ListingItems(requestPath, names[..i + 1])
      == ListingItems(requestPath, names[..i]) + ListingItem(requestPath, names[i])
  {
    assert names[..i + 1][..i] == names[..i];
  }

  /** generateDirectoryListing, with its readdir loop. */
  method GenerateDirectoryListing(requestPath: string, entries: Option<seq<string>>) returns (html: string)
    ensures html == DirectoryListing(requestPath, entries)
  {
    html := "<html><head><title>Directory Listing</title></head><body>";
    html := html + "<h1>Directory Listing for " + requestPath + "</h1><ul>";
    if entries.Some? {
      var items := ListEntries(requestPath, entries.value);
      html := html + items;
    }
    html := html + "</ul></body></html>";
  }

  /** The readdir loop of generateDirectoryListing. */
  method ListEntries(requestPath: string, names: seq<string>) returns (items: string)
    ensures items == ListingItems(requestPath, names)
  {
    items := "";
    var i := 0;
    while i < |names|
      invariant 0 <= i <= |names|
      invariant items == ListingItems(requestPath, names[..i])
    {
      var name := names[i];
      ListingItemsSnoc(requestPath, names, i);
      if name != "." {
        var link := requestPath;
        if !EndsWith(link, "/") {
          link := link + "/";
        }
        link := link + name;
        var item := "<li><a href=\"" + link + "\">" + name + "</a></li>";
        assert item == ListingItem(requestPath, name);
        items := items + item;
      }
      i := i + 1;
    }
    assert names[..i] == names;
  }

  // ---------------------------------------------------------------------------------------
  // Uploads

  /** The largest body handleFileUpload accepts: 10 MiB. */
  const MAX_FILE_SIZE := 10 * 1024 * 1024

  /** Why handleFileUpload refuses a multipart body. */
  datatype Refusal = NoBoundary | NoFormData | NoFilename | BadFilename | BadFormat

  /** The multipart body read as far as the upload needs: the reason it is refused, or the
      file's name and contents. */
  datatype Parsed = Rejected(refusal: Refusal) | Accepted(filename: string, content: string)

  /** The answer handleFileUpload gives for each refusal. */
  function RefusalResponse(refusal: Refusal): ResponseData {
    match refusal
    case NoBoundary => HtmlError(400, "Bad Request", "No boundary found in multipart data")
    case NoFormData => HtmlError(400, "Bad Request", "No form data found")
    case NoFilename => HtmlError(400, "Bad Request", "No filename found")
    case BadFilename => INVALID_FILENAME_RESPONSE
    case BadFormat => HtmlError(400, "Bad Request", "Invalid multipart format")
  }

  /** The filename checks of handleFileUpload. */
  predicate InvalidFilename(filename: string) {
    || filename == "" || Contains(filename, "..") || Contains(filename, "/") || Contains(filename, "\\")
    || filename[0] == '.' || |filename| > 255
  }

  /** `s` has two dots in a row. */
  predicate HasDotDot(s: string) {
    exists i :: 0 <= i < |s| - 1 && s[i] == '.' && s[i + 1] == '.'
  }

  lemma {:induction false} FindDotDot(s: string)
    ensures Contains(s, "..") <==> HasDotDot(s)
  {
    match IndexOf(s, "..", 0)
    case Some(i) =>
      assert s[i..i + 2] == "..";
      assert s[i] == '.' && s[i + 1] == '.';
    case None =>
      if HasDotDot(s) {
        var i :| 0 <= i < |s| - 1 && s[i] == '.' && s[i + 1] == '.';
        assert s[i..i + 2] == "..";
        assert OccursAt(s, "..", i);
      }
  }

  /** A name is accepted exactly when it is 1 to 255 characters long, does not start with a
      dot, has no '/' and no '\', and no two dots in a row. */
  lemma ValidFilename(filename: string)
    ensures !InvalidFilename(filename) <==>
      && 0 < |filename| <= 255 && filename[0] != '.'
      && '/' !in filename && '\\' !in filename && !HasDotDot(filename)
  {
    FindChar(filename, '/');
    FindChar(filename, '\\');
    FindDotDot(filename);
  }

  /** The 413 page. */
  function TooLargePage(size: nat): string {
    "<html><head><title>File Too Large</title></head><body>"
    + "<h1>" + CROSS_MARK + " File Too Large</h1>"
    + "<p>The uploaded file exceeds the maximum size limit of " + NatToString(MAX_FILE_SIZE / (1024 * 1024)) + " MB.</p>"
    + "<p><strong>Your file size:</strong> " + NatToString(size / 1024) + " KB</p>"
    + "<div style='margin-top: 20px;'>"
    + "<a href='/upload.html' style='text-decoration: none; background: #007bff; color: white; padding: 10px 20px; border-radius: 5px;'>"
    + RETRY_MARK + " Try Again</a>"
    + "</div></body></html>"
  }

  /** The 400 page for a refused filename. */
  const INVALID_FILENAME_PAGE :=
    "<html><head><title>Invalid Filename</title></head><body>"
    + "<h1>" + CROSS_MARK + " Invalid Filename</h1>"
    + "<p>The filename contains invalid characters or is not allowed.</p>"
    + "<p><strong>Rules:</strong></p><ul>"
    + "<li>No directory traversal (../)</li>"
    + "<li>No path separators (/ or \\)</li>"
    + "<li>Cannot start with a dot</li>"
    + "<li>Maximum length: 255 characters</li></ul>"
    + "<div style='margin-top: 20px;'>"
    + "<a href='/upload.html' style='text-decoration: none; background: #007bff; color: white; padding: 10px 20px; border-radius: 5px;'>"
    + RETRY_MARK + " Try Again</a>"
    + "</div></body></html>"

  /** The answer to a refused filename: 400 with the page above. */
  const INVALID_FILENAME_RESPONSE := Page(400, "Bad Request", "text/html", INVALID_FILENAME_PAGE, false)

  /** The 200 page after a saved upload. */
  function UploadedPage(filename: string, size: nat, uploadDir: string): string {
    "<html><head><title>Upload Success</title></head><body>"
    + "<h1>" + CHECK_MARK + " File Upload Successful</h1>"
    + "<p>File <strong>" + filename + "</strong> has been uploaded successfully.</p>"
    + "<p><strong>File size:</strong> " + NatToString(size) + " bytes</p>"
    + "<p><strong>Upload directory:</strong> " + uploadDir + "</p>"
    + "<div style='margin-top: 20px;'>"
    + "<a href='/' style='text-decoration: none; background: #007bff; color: white; padding: 10px 20px; border-radius: 5px; margin-right: 10px;'>"
    + HOME_MARK + " Home</a>"
    + "<a href='/uploads.html' style='text-decoration: none; background: #28a745; color: white; padding: 10px 20px; border-radius: 5px; margin-right: 10px;'>"
    + FOLDER_MARK + " View Uploads</a>"
    + "<a href='/upload.html' style='text-decoration: none; background: #17a2b8; color: white; padding: 10px 20px; border-radius: 5px;'>"
    + OUTBOX_MARK + " Upload More</a>"
    + "</div>"
    + "</body></html>"
  }

  // The bytes the pages carry for their symbols, one character per byte.
  const CROSS_MARK := "\U{e2}\U{80}\U{9a}\U{c3}\U{b9}\U{c3}\U{a5}"
  const RETRY_MARK := "\U{ef}\U{a3}\U{bf}\U{c3}\U{bc}\U{c3}\U{ae}\U{c3}\U{91}"
  const CHECK_MARK := "\U{e2}\U{80}\U{9a}\U{c3}\U{ba}\U{c3}\U{96}"
  const HOME_MARK := "\U{ef}\U{a3}\U{bf}\U{c3}\U{bc}\U{c3}\U{a8}\U{e2}\U{80}\U{a0}"
  const FOLDER_MARK := "\U{ef}\U{a3}\U{bf}\U{c3}\U{bc}\U{c3}\U{ac}\U{c3}\U{85}"
  const OUTBOX_MARK := "\U{ef}\U{a3}\U{bf}\U{c3}\U{bc}\U{c3}\U{ac}\U{c2}\U{a7}"

  /** The position after the file's data: `end` moved back over the CR and LF characters
      before the boundary, but not before `start`. */
  function ContentEnd(body: string, start: nat, end: nat): (r: nat)
    requires start <= end <= |body|
    ensures start <= r <= end
    ensures forall j :: r <= j < end ==> body[j] == '\r' || body[j] == '\n'
    ensures r > start ==> body[r - 1] != '\r' && body[r - 1] != '\n'
    decreases end
  {
    if end > start && (body[end - 1] == '\r' || body[end - 1] == '\n') then ContentEnd(body, start, end - 1)
    else end
  }

  /** The loop of handleFileUpload that removes the line break before the boundary. */
  method TrimContentEnd(body: string, contentStart: nat, boundaryPos: nat) returns (contentEnd: nat)
    requires contentStart <= boundaryPos <= |body|
    ensures contentEnd == ContentEnd(body, contentStart, boundaryPos)
  {
    contentEnd := boundaryPos;
    while contentEnd > contentStart && (body[contentEnd - 1] == '\r' || body[contentEnd - 1] == '\n')
      invariant contentStart <= contentEnd <= boundaryPos
      invariant ContentEnd(body, contentStart, contentEnd) == ContentEnd(body, contentStart, boundaryPos)
    {
      contentEnd := contentEnd - 1;
    }
  }

  /** The filename in quotes from `start`: up to the next '"', or to the end without one. */
  function FilenameAt(body: string, start: nat): string
    requires start <= |body|
  {
    match IndexOf(body, "\"", start)
    case None => body[start..]
    case Some(e) => body[start..e]
  }

  /** The multipart boundary line: "--" and everything after "boundary=" in the content type. */
  function UploadBoundary(contentType: string): Option<string> {
    match IndexOf(contentType, "boundary=", 0)
    case None => None
    case Some(boundaryPos) => Some("--" + contentType[boundaryPos + 9..])
  }

  /** Where the first form-data part's headers begin. */
  function FormDataStart(body: string): Option<nat> {
    IndexOf(body, "Content-Disposition: form-data", 0)
  }

  /** handleFileUpload's reading of the body, up to the first check that fails. */
  function ParseUpload(contentType: string, body: string): Parsed {
    match UploadBoundary(contentType)
    case None => Rejected(NoBoundary)
    case Some(boundary) =>
      match FormDataStart(body)
      case None => Rejected(NoFormData)
      case Some(fileStart) => ParseFilename(body, boundary, fileStart)
  }

  /** From the form data on: the filename and its checks. */
  function ParseFilename(body: string, boundary: string, fileStart: nat): Parsed {
    match IndexOf(body, "filename=\"", fileStart)
    case None => Rejected(NoFilename)
    case Some(filenamePos) => CheckFilename(body, boundary, fileStart, FilenameAt(body, filenamePos + 10))
  }

  /** The filename's checks, then the part's data. */
  function CheckFilename(body: string, boundary: string, fileStart: nat, filename: string): Parsed {
    if InvalidFilename(filename) then Rejected(BadFilename)
    else ParseContent(body, boundary, fileStart, filename)
  }

  /** From the part's blank line to the boundary after it: the file's data. */
  function ParseContent(body: string, boundary: string, fileStart: nat, filename: string): Parsed {
    match BlankLineEnd(body, fileStart)
    case None => Rejected(BadFormat)
    case Some(contentStart) =>
      match IndexOf(body, boundary, contentStart)
      case None => Rejected(BadFormat)
      case Some(boundaryPos) =>
        Accepted(filename, body[contentStart..ContentEnd(body, contentStart, boundaryPos)])
  }

  /** Every refusal of the body is a 400. */
  lemma RejectedIsBadRequest(refusal: Refusal)
    ensures RefusalResponse(refusal).statusCode == 400
    ensures RefusalResponse(refusal).statusMessage == "Bad Request"
  {
  }

  /** No CR or LF at the end of `c`. */
  predicate NoTrailingBreak(c: string) {
    |c| == 0 || (c[|c| - 1] != '\r' && c[|c| - 1] != '\n')
  }

  /** `c` is the text of `body` from `start` on, followed only by CR and LF characters up to
      `end`, and does not itself end with one: the data before `end` with the line break
      in front of it removed. */
  predicate TrimmedBefore(body: string, start: nat, end: nat, c: string)
    requires start <= end <= |body|
  {
    && start + |c| <= end
    && body[start..start + |c|] == c
    && (forall j :: start + |c| <= j < end ==> body[j] == '\r' || body[j] == '\n')
    && NoTrailingBreak(c)
  }

  /** An accepted upload has a valid name, and its data is what lies between the first blank
      line after the form data and the first boundary after that blank line, less the line
      break in front of the boundary. */
  lemma AcceptedUpload(contentType: string, body: string)
    requires ParseUpload(contentType, body).Accepted?
    ensures !InvalidFilename(ParseUpload(contentType, body).filename)
    ensures NoTrailingBreak(ParseUpload(contentType, body).content)
    ensures UploadBoundary(contentType).Some? && FormDataStart(body).Some?
    ensures var boundary := UploadBoundary(contentType).value;
      var start := BlankLineEnd(body, FormDataStart(body).value).value;
      var end := IndexOf(body, boundary, start).value;
      TrimmedBefore(body, start, end, ParseUpload(contentType, body).content)
  {
    FilenameAccepted(body, UploadBoundary(contentType).value, FormDataStart(body).value);
  }

  lemma FilenameAccepted(body: string, boundary: string, fileStart: nat)
    requires ParseFilename(body, boundary, fileStart).Accepted?
    ensures !InvalidFilename(ParseFilename(body, boundary, fileStart).filename)
    ensures NoTrailingBreak(ParseFilename(body, boundary, fileStart).content)
    ensures var start := BlankLineEnd(body, fileStart).value;
      var end := IndexOf(body, boundary, start).value;
      TrimmedBefore(body, start, end, ParseFilename(body, boundary, fileStart).content)
  {
    var filenamePos := IndexOf(body, "filename=\"", fileStart).value;
    ContentAccepted(body, boundary, fileStart, FilenameAt(body, filenamePos + 10));
  }

  lemma ContentAccepted(body: string, boundary: string, fileStart: nat, filename: string)
    requires ParseContent(body, boundary, fileStart, filename).Accepted?
    ensures ParseContent(body, boundary, fileStart, filename).filename == filename
    ensures NoTrailingBreak(ParseContent(body, boundary, fileStart, filename).content)
    ensures var start := BlankLineEnd(body, fileStart).value;
      var end := IndexOf(body, boundary, start).value;
      TrimmedBefore(body, start, end, ParseContent(body, boundary, fileStart, filename).content)
  {
    var contentStart := BlankLineEnd(body, fileStart).value;
    var boundaryPos := IndexOf(body, boundary, contentStart).value;
    var contentEnd := ContentEnd(body, contentStart, boundaryPos);
    var c := body[contentStart..contentEnd];
    if |c| > 0 {
      assert c[|c| - 1] == body[contentEnd - 1];
    }
  }

  /** A filename that fails a check is refused as `BadFilename`, whatever follows it in the
      body; `RefusalResponse` answers that with the 400 invalid-filename page. */
  lemma InvalidNameRefused(body: string, boundary: string, fileStart: nat, filename: string)
    requires IndexOf(body, "filename=\"", fileStart).Some?
    requires FilenameAt(body, IndexOf(body, "filename=\"", fileStart).value + 10) == filename
    requires InvalidFilename(filename)
    ensures ParseFilename(body, boundary, fileStart) == Rejected(BadFilename)
  {
  }

  /** saveUploadedFile: create the directory when stat fails, then write the file in it. */
  function SaveUploadedFile(content: string, filename: string, uploadDir: string, fs: FileSystem): bool {
    && (fs.stat(uploadDir).Some? || fs.mkdir(uploadDir))
    && fs.write(uploadDir + "/" + filename, content)
  }

  /** handleFileUpload. */
  function HandleFileUpload(config: Settings, req: RequestData, location: Option<Location>, fs: FileSystem): ResponseData {
    var body := req.body;
    if |body| > MAX_FILE_SIZE then Page(413, "Payload Too Large", "text/html", TooLargePage(|body|), false)
    else
      match ParseUpload(req.Header("content-type"), body)
      case Rejected(refusal) => RefusalResponse(refusal)
      case Accepted(filename, content) =>
        var uploadDir := UploadDir(config.root, location);
        if SaveUploadedFile(content, filename, uploadDir, fs) then
          Page(200, "OK", "text/html", UploadedPage(filename, |content|, uploadDir), false)
        else HtmlError(500, "Internal Server Error", "Failed to save uploaded file")
  }

  /** An accepted upload is answered 200 exactly when its content can be written, under its
      own filename, in the upload directory (made first when it does not exist); else 500. */
  lemma UploadSaved(config: Settings, req: RequestData, location: Option<Location>, fs: FileSystem, filename: string, content: string)
    requires |req.body| <= MAX_FILE_SIZE
    requires ParseUpload(req.Header("content-type"), req.body) == Accepted(filename, content)
    ensures var dir := UploadDir(config.root, location);
      var r := HandleFileUpload(config, req, location, fs);
      && (r.statusCode == 200 <==> (fs.stat(dir).Some? || fs.mkdir(dir)) && fs.write(dir + "/" + filename, content))
      && (r.statusCode != 200 ==> r.statusCode == 500)
  {
  }

  /** A body over 10 MiB is refused with 413, and a refused multipart body with 400, before
      anything is written: the answer does not depend on the file system. */
  lemma UploadChecksFirst(config: Settings, req: RequestData, location: Option<Location>, fs1: FileSystem, fs2: FileSystem)
    requires |req.body| > MAX_FILE_SIZE || ParseUpload(req.Header("content-type"), req.body).Rejected?
    ensures HandleFileUpload(config, req, location, fs1) == HandleFileUpload(config, req, location, fs2)
    ensures HandleFileUpload(config, req, location, fs1).statusCode == if |req.body| > MAX_FILE_SIZE then 413 else 400
  {
    if |req.body| <= MAX_FILE_SIZE {
      RejectedIsBadRequest(ParseUpload(req.Header("content-type"), req.body).refusal);
    }
  }
}
