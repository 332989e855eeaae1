# Webserv core in Dafny

This project models the request-handling core of Webserv, a small HTTP/1.1 server written
in C++98, and proves properties of that model. The modelled parts are:

- **`Connections`** (`connection_manager.dfy`) is the connection table. It holds a map
  from client fd to connection and the `pollfd` vector whose slot 0 is the listening socket.
  The model covers adding and removing clients and evicting clients idle for more than 30
  seconds. It also covers the completeness test on a request buffer (the blank line, then
  Content-Length with glibc `atoi` and `size_t` arithmetic), the error reply, and activity
  stamping. Its invariant `Valid` says that slot 0 stays the server's and that every other
  slot is exactly one client.
- **`Configuration`** (`config.dfy`) is the configuration file reader. It covers the line
  loop over the directives, `location` blocks flushed in file order, directives that apply
  only inside a block, and `trim`/`removeSemicolon`. It also covers the longest-prefix
  location lookup (the first one wins on ties) and the method allow-list.
- **`Requests`** (`request.dfy`) is the request parser. It reads the request line's three
  tokens and the header lines up to the first empty or `"\r"` line. Values lose their
  leading blanks and one trailing CR, and later duplicates win. The body is the remaining
  lines joined by LF.
- **`Responses`** (`response.dfy`) is the response builder of `srcs/`. Its setters act on
  the status, the header map and the body. Its serialiser writes the status line, the
  headers in key order, then Content-Length, Server and Date unless the caller set them,
  then a blank line and the body.
- **`LegacyResponses`** (`legacy_response.dfy`) is the older builder at the top of the
  tree. Its serialiser always appends Content-Length.
- **`CgiGateway`** (`cgi_handler.dfy`) is the CGI handler. It covers CGI detection by
  extension, the positional interpreter lookup and the environment block. It also covers
  the 500 answers before and after the script runs, and the translation of the script's
  output into a response.
- **`HttpHandling`** (`http_handler.dfy`) is the request dispatcher. It covers:
  - 405 before method dispatch, then 501;
  - redirects;
  - static files, index files and directory listings;
  - POST acknowledgement and multipart uploads (size limit, boundary, filename checks,
    content slicing, upload directory);
  - DELETE under `/uploads/`;
  - MIME types and error pages.
- **`Strings`** and **`Wrappers`** (`strings.dfy`, `wrappers.dfy`) hold the shared text
  functions and `Option`. The text functions are `find`, line splitting, word extraction,
  the byte-wise key order of `std::map<std::string, …>`, and decimal conversion.

Objects that the C++ updates in place are classes whose methods state their whole new
state: `ConnectionManager`, `Config`, `Request` and both `Response`s. Each such method is
tied to a function on values, and the properties are proved about that function. The
handlers build a `Response` and return its text. They are modelled as functions that return
the response value; `Responses.Serialize` gives its text.

## Model

| member | source | states |
|---|---|---|
| Connections.ConnectionManager.constructor | srcs/connection_manager.cpp:21-28 | no clients; the poll vector is exactly the server fd watching POLLIN; `Valid` holds |
| Connections.ConnectionManager.AddClient | srcs/connection_manager.cpp:30-39 | the fd maps to a fresh connection stamped `now`; one POLLIN slot is appended; `Valid` is kept for an fd not yet polled |
| Connections.AddConsistent | srcs/connection_manager.cpp:30-39 | adding an unpolled fd to both tables keeps them in one-to-one correspondence |
| Connections.ConnectionManager.RemoveClient | srcs/connection_manager.cpp:41-55 | the key is erased, and so is the first poll slot for the fd; slot 0 and `Valid` are kept when the fd is not the server's |
| Connections.EraseFirstIsKeep | srcs/connection_manager.cpp:46-52 | on distinct fds, erasing the first slot of an fd is filtering that fd out |
| Connections.KeepMember | srcs/connection_manager.cpp:41-72 | the filtered poll vector holds exactly the slots whose fd is not removed |
| Connections.KeepKeep | srcs/connection_manager.cpp:57-72 | filtering twice is filtering by the union |
| Connections.KeepDistinct | srcs/connection_manager.cpp:57-72 | filtering keeps fds distinct |
| Connections.EraseEachIsKeep | srcs/connection_manager.cpp:57-72 | removing the fds one by one equals one filter by their set |
| Connections.EvictConsistent | srcs/connection_manager.cpp:57-72 | eviction of client fds keeps slot 0 first and the tables consistent |
| Connections.SortedFds | srcs/connection_manager.cpp:59-66 | the map's keys in ascending order, as the map iteration visits them |
| Connections.ConnectionManager.ExpiredClients | srcs/connection_manager.cpp:59-66 | the collected fds are exactly the expired ones, in key order |
| Connections.ConnectionManager.CollectExpired | srcs/connection_manager.cpp:61-65 | the loop collects `ExpiredAmong` of the keys in the order given |
| Connections.ExpiredAmongMember | srcs/connection_manager.cpp:59-66 | an fd is collected iff it is a client idle for more than 30 seconds |
| Connections.ConnectionManager.RemoveClients | srcs/connection_manager.cpp:68-71 | every collected fd leaves the map, and its first poll slot is erased in turn |
| Connections.ConnectionManager.HandleTimeouts | srcs/connection_manager.cpp:57-72 | the clients left are exactly those not expired, unchanged; their poll slots keep their order; `Valid` is kept |
| Connections.TimeoutsConsistent | srcs/connection_manager.cpp:57-72 | the successive erasures equal one filter, and the tables stay consistent |
| Connections.UnexpiredRemain | srcs/connection_manager.cpp:57-72 | the removed fds are exactly the expired clients; the survivors are the map less them |
| Connections.ConnectionManager.UpdateClientActivity | srcs/connection_manager.cpp:135-140 | only a known client's `lastActivity` changes, to `now`; an unknown fd changes nothing |
| Connections.ConnectionManager.IsRequestComplete | srcs/connection_manager.cpp:74-116 | the result is `RequestComplete(buffer)` |
| Connections.ToInt32 | srcs/connection_manager.cpp:108 | the value wrapped into the 32-bit signed range, unchanged when it already fits |
| Connections.Atoi | srcs/connection_manager.cpp:108 | glibc `atoi`: always a 32-bit value |
| Connections.AtoiDecimal | srcs/connection_manager.cpp:108 | on a digit string below 2^31, `atoi` is its decimal value |
| Connections.NoWrap | srcs/connection_manager.cpp:109 | the `size_t` sum of header end and length does not wrap for a non-negative length |
| Connections.RequestComplete | srcs/connection_manager.cpp:74-116 | the completeness test; `CompleteByLength`, `CompleteWithoutLength`, `IncompleteWithoutBlankLine` and `CompleteStable` characterise it |
| Connections.CompleteByLength | srcs/connection_manager.cpp:87-111 | with a Content-Length of digits, the buffer is complete iff it holds the header section plus that many bytes |
| Connections.CompleteWithoutLength | srcs/connection_manager.cpp:87-115 | a header section that names neither spelling of Content-Length is complete |
| Connections.IncompleteWithoutBlankLine | srcs/connection_manager.cpp:76-81 | without CRLFCRLF or LFLF the buffer is never complete |
| Connections.CompleteStable | srcs/connection_manager.cpp:76-111 | once complete with a CRLF blank line, more bytes keep it complete |
| Connections.ErrorReply | srcs/connection_manager.cpp:118-133 | the error response, characterised by `ErrorReplyWire` |
| Connections.ErrorReplyWire | srcs/connection_manager.cpp:118-133 | the error reply is the handler's error page with the message as reason; its text starts with the status line and ends with a blank line and the page |
| Strings.TrimSpaces | srcs/connection_manager.cpp:105-106 | the two erase loops give `SpaceTrimmed`, the value less its leading and trailing spaces, as `SpaceTrimmedSplit` pins down |
| Strings.TrimLeadingSpacesSuffix | srcs/connection_manager.cpp:105 | the leading-space loop keeps the rest of the value: the result is a suffix of it |
| Strings.TrimTrailingSpacesPrefix | srcs/connection_manager.cpp:106 | the trailing-space loop keeps the rest of the value: the result is a prefix of it |
| Strings.SpaceTrimmedSplit | srcs/connection_manager.cpp:105-106 | spaces, then a text that neither starts nor ends with a space, then spaces, trim to exactly that text |
| Strings.BlankLineEnd | srcs/connection_manager.cpp:76-85 | an end between `from + 2` and the text's length; none iff neither CRLFCRLF nor LFLF occurs from `from` on |
| Strings.IndexOf | srcs/connection_manager.cpp:76 | `std::string::find`: the first occurrence at or after `from` |
| Strings.LastIndexOf | srcs/cgi_handler.cpp:67 | `find_last_of`: the last position holding the character |
| Strings.SortedKeys | srcs/response.cpp:70-73 | the keys in strictly increasing byte order, each once, as `std::map` iterates |
| Strings.DigitsRoundTrip | srcs/response.cpp:77 | reading the decimal text of a number gives the number back |
| Configuration.Config.constructor | srcs/config.cpp:15-18 | the file name is kept; the settings are the defaults (8080, localhost, 127.0.0.1, "./", index.html, 1000000) |
| Configuration.Trim | srcs/config.cpp:131-136 | empty iff all blank; otherwise no blank at either end |
| Configuration.TrimSplit | srcs/config.cpp:131-136 | blanks, a text without blank ends, then blanks trim to that text |
| Configuration.TrimIdempotent | srcs/config.cpp:131-136 | trimming twice is trimming once |
| Configuration.RemoveSemicolon | srcs/config.cpp:138-143 | exactly one trailing ';' is removed; other text is unchanged |
| Configuration.RemoveSemicolonAppended | srcs/config.cpp:138-143 | removing the semicolon undoes appending one |
| Configuration.Extract | srcs/config.cpp:57 | `iss >> int`: no value iff no token; the stored value stays within the type's range |
| Configuration.ExtractDecimal | srcs/config.cpp:57-83 | a decimal number after white space that fits the type is stored as its value, the extraction succeeds, and the text after the digits remains |
| Configuration.ParseLines | srcs/config.cpp:20-129 | the settings after the whole file, characterised by `LocationsInFileOrder`, `RunPending` and `RunNoRedirect` |
| Configuration.Step | srcs/config.cpp:31-120 | one line's effect, characterised by `DirectivePending`, `RootScope`, `IndexScope` and `IgnoredOutsideBlock` |
| Configuration.Config.ParseConfig | srcs/config.cpp:20-129 | false iff the file cannot be opened, leaving the state unchanged; otherwise the state is `ParseLines` of the file's lines |
| Configuration.Config.ApplyLine | srcs/config.cpp:32-120 | one pass of the loop changes the state as `Step` says: blank and comment lines change nothing |
| Configuration.Config.ApplyDirective | srcs/config.cpp:37-120 | one directive changes the fields as `Directive` says |
| Configuration.Config.ApplySetting | srcs/config.cpp:56-120 | the server-wide fields change as `SettingsEffect` says |
| Configuration.Config.ReadErrorPage | srcs/config.cpp:115-119 | the code and page read from the directive's words |
| Configuration.Config.ReadAllowMethods | srcs/config.cpp:84-91 | every following word is appended, less its trailing ';' |
| Configuration.Config.ApplyToLocation | srcs/config.cpp:64-114 | the current block changes as `LocationEffect` says |
| Configuration.SettingsEffect | srcs/config.cpp:56-120 | no directive of this kind touches the stored locations |
| Configuration.LocationEffect | srcs/config.cpp:64-114 | outside a block nothing changes; path and redirect are never changed |
| Configuration.LocationsInFileOrder | srcs/config.cpp:43-55 | the stored locations are the old ones, then each opened block's path in file order |
| Configuration.RunPending | srcs/config.cpp:31-121 | over any run of lines, the pending paths grow by the opened paths |
| Configuration.DirectivePending | srcs/config.cpp:43-55 | only a `location` line adds a pending path |
| Configuration.RootScope | srcs/config.cpp:64-72 | `root` sets the block's root inside a block and the server's outside |
| Configuration.IndexScope | srcs/config.cpp:73-81 | `index` sets the block's index inside a block and the server's outside |
| Configuration.IgnoredOutsideBlock | srcs/config.cpp:84-114 | block-only directives and a stray `}` change nothing outside a block |
| Configuration.NoRedirect | srcs/config.cpp:20-129 | no directive sets a redirect, so every parsed location has none |
| Configuration.RunNoRedirect | srcs/config.cpp:31-121 | the line loop keeps every redirect empty |
| Configuration.FindAtZero | srcs/config.cpp:150 | `find(loc) == 0` holds iff `loc` is a prefix |
| Configuration.BestLocation | srcs/config.cpp:145-158 | none iff no non-empty prefix matches; otherwise a match of maximal length, strictly longer than every earlier match |
| Configuration.Config.FindLocation | srcs/config.cpp:145-158 | the index is `BestLocation` of the stored locations |
| Configuration.MethodAllowed | srcs/config.cpp:160-171 | the allow-list test, as `Config.IsMethodAllowed` states it |
| Configuration.Config.IsMethodAllowed | srcs/config.cpp:160-171 | allowed iff there is no location, its list is empty, or the method is in it |
| Requests.Request.constructor | request.cpp:15 | all fields empty |
| Requests.Request.Parse | request.cpp:17-49 | the result and new fields are `ParseRequest` of the old fields and the text |
| Requests.ParseRequest | request.cpp:17-49 | false on empty input, leaving the fields unchanged; true iff the first line has at least three tokens |
| Requests.FirstLineTokens | request.cpp:22-24 | the request line is accepted iff it has three tokens, which become method, path and version; on failure the fields extracted so far are kept |
| Requests.ParsedRequestLine | request.cpp:22-24 | an accepted request's method, path and version are the first line's first three tokens |
| Requests.HeaderEntry | request.cpp:32-41 | no entry iff the line has no ':'; otherwise the key is the text before the first ':' and the value follows it |
| Requests.HeaderValue | request.cpp:36-39 | leading spaces and tabs removed, then one trailing CR |
| Requests.ParseLines | request.cpp:17-49 | the parse over the request's lines; `FirstLineTokens`, `ParsedSections` and `ParsedWithoutEnd` characterise it |
| Requests.ParsedSections | request.cpp:25-47 | the headers come from the lines before the first empty or CR-only line, and the body from the lines after it |
| Requests.ParsedWithoutEnd | request.cpp:25-47 | without such a line every line is a header line and the body stays as it was |
| Requests.HeaderSection | request.cpp:25-47 | the reading loop splits at the first header end |
| Requests.LastHeaderWins | request.cpp:40 | a repeated header keeps its last value |
| Requests.UnnamedHeader | request.cpp:40 | a key no line names keeps its old value |
| Requests.BodyJoin | request.cpp:43-45 | the body is the lines after the leading empty ones, joined by LF |
| Requests.BodyEmpty | request.cpp:43-45 | the body stays empty iff every body line is empty |
| Requests.Request.GetHeader | request.cpp:63-68 | the stored value, or "" when the name is absent |
| Responses.Response.constructor | srcs/response.cpp:15 | 200 "OK", no headers, empty body |
| Responses.Response.SetStatus | srcs/response.cpp:17-20 | the code and message are replaced; headers and body are unchanged |
| Responses.Response.SetHeader | srcs/response.cpp:22-24 | the header map is updated at the key; nothing else changes |
| Responses.Response.SetBody | srcs/response.cpp:26-28 | the body is replaced; nothing else changes |
| Responses.Response.SetContentType | srcs/response.cpp:30-32 | Content-Type is set; nothing else changes |
| Responses.Response.SetRedirect | srcs/response.cpp:34-37 | the status is the code, with "Moved Permanently" for 301 and "Found" otherwise; Location is set |
| Responses.ResponseData.WithRedirect | srcs/response.cpp:34-37 | the redirect update, as `Response.SetRedirect` states it |
| Responses.ResponseData.WithCookie | srcs/response.cpp:39-42 | the cookie update, as `Response.SetCookie` states it |
| Responses.Response.SetCookie | srcs/response.cpp:39-42 | Set-Cookie is `name=value; Path=path` |
| Responses.Response.SetDate | srcs/response.cpp:44-54 | the Date header is set to the given text |
| Responses.Response.SetServer | srcs/response.cpp:56-58 | the Server header is set to the name |
| Responses.Response.ToString | srcs/response.cpp:64-105 | the text is `Serialize` of the response's state |
| Responses.Serialize | srcs/response.cpp:64-105 | the response text; `EachHeaderOnce`, `HeaderWritten`, `Framing` and `BodyAfterBlankLine` characterise it |
| Responses.EachHeaderOnce | srcs/response.cpp:64-105 | every written header name appears once, and the written fields are the defaults overridden by the caller's map |
| Responses.HeaderWritten | srcs/response.cpp:69-95 | every caller header is written; Content-Length (the body size), Server and Date are written when the caller did not set them |
| Responses.Framing | srcs/response.cpp:64-105 | the text starts with the status line and ends with a blank line and the body; with clean headers the first blank line ends right before the body |
| Responses.BodyAfterBlankLine | srcs/response.cpp:97-104 | a reader that splits at the first blank line gets the body back exactly |
| Responses.SortedEntriesMap | srcs/response.cpp:70-73 | the sorted entries are the header map |
| Responses.SortedEntriesDistinct | srcs/response.cpp:70-73 | the sorted entries have distinct names |
| LegacyResponses.Response.constructor | response.cpp:15 | 200 "OK", no headers, empty body |
| LegacyResponses.Response.SetStatus | response.cpp:17-20 | the code and message are replaced |
| LegacyResponses.Response.SetHeader | response.cpp:22-24 | the header map is updated at the key |
| LegacyResponses.Response.SetBody | response.cpp:26-28 | the body is replaced |
| LegacyResponses.Response.ToString | response.cpp:30-40 | the text is `LegacySerialize` of the state |
| LegacyResponses.LegacySerialize | response.cpp:30-40 | the legacy text; `LegacyContentLength`, `LegacyDuplicateLength` and `LegacyAgreesWithCurrent` characterise it |
| LegacyResponses.LegacyContentLength | response.cpp:30-40 | without a caller Content-Length, each header is written once and Content-Length is the body size |
| LegacyResponses.LegacyDuplicateLength | response.cpp:30-40 | with a caller Content-Length, that name is written twice, once with each value |
| LegacyResponses.LegacyAgreesWithCurrent | response.cpp:30-40 | with Server and Date set and Content-Length unset, both builders write the same text |
| CgiGateway.IsCgiRequest | srcs/cgi_handler.cpp:25-46 | the result is `CgiRequest`: a location exists, the path has a '.', and its last extension is configured |
| CgiGateway.CgiRequestSuffix | srcs/cgi_handler.cpp:25-46 | a path ending in a dot-led extension is CGI iff that extension is configured |
| CgiGateway.GetCgiInterpreter | srcs/cgi_handler.cpp:48-61 | the result is the interpreter paired by position with the extension |
| CgiGateway.PairedPathAt | srcs/cgi_handler.cpp:52-58 | the first matching position within both lists gives the path at that position |
| CgiGateway.PairedPathMissing | srcs/cgi_handler.cpp:52-60 | with no match within both lists the interpreter is "" |
| CgiGateway.ScriptInput | srcs/cgi_handler.cpp:133-135 | the script's stdin is the body for POST and empty otherwise |
| CgiGateway.EnvName | srcs/cgi_handler.cpp:242-248 | same length; position by position, '-' becomes '_', a lower-case letter becomes its upper-case one, and every other character is kept; so no '-' or lower-case letter is left |
| CgiGateway.EnvNameHttp | srcs/cgi_handler.cpp:242-248 | the HTTP_ prefix passes through unchanged |
| CgiGateway.HeaderVariables | srcs/cgi_handler.cpp:240-249 | one variable per header, in key order, each `HTTP_NAME=value` |
| CgiGateway.Environment | srcs/cgi_handler.cpp:210-250 | the environment block; `EnvironmentSize` and `EnvironmentHasHeader` characterise it |
| CgiGateway.EnvironmentSize | srcs/cgi_handler.cpp:210-250 | nine fixed variables, the two content variables when present, and one per header |
| CgiGateway.EnvironmentHasHeader | srcs/cgi_handler.cpp:240-249 | every header appears as `HTTP_` + its converted name + `=` + its value |
| CgiGateway.SetupCgiEnvironment | srcs/cgi_handler.cpp:210-250 | the block built push by push is `Environment` |
| CgiGateway.HeaderLoop | srcs/cgi_handler.cpp:240-249 | the header loop yields `HeaderVariables` |
| CgiGateway.EnvKey | srcs/cgi_handler.cpp:242-248 | the character loop yields the converted name |
| CgiGateway.ExitStatus | srcs/cgi_handler.cpp:153 | `WEXITSTATUS` lies in 0..255 |
| CgiGateway.ExitStatusOf | srcs/cgi_handler.cpp:153 | the exit code is recovered from a wait status |
| CgiGateway.CgiField | srcs/cgi_handler.cpp:193-200 | no field iff the line has no ':'; otherwise it is split at the first ':' and the value is space-trimmed |
| CgiGateway.ApplyHeaderLines | srcs/cgi_handler.cpp:186-204 | status, message and body are untouched, and no header is lost |
| CgiGateway.CgiResponse | srcs/cgi_handler.cpp:63-208 | executeCgi's answer; `CgiInvocation`, `NoInterpreterNoSpawn` and `FailedScript` characterise it |
| CgiGateway.CgiOutput | srcs/cgi_handler.cpp:161-204 | the answer built from a script's output; `CgiBodyAfterBlankLine` and `CgiOutputWithoutHeaders` characterise it |
| CgiGateway.CgiInvocation | srcs/cgi_handler.cpp:63-206 | when the script exits, the answer depends only on its status and output |
| CgiGateway.NoInterpreterNoSpawn | srcs/cgi_handler.cpp:66-83 | without an extension or an interpreter the answer is 500 whatever the script would do; "No file extension" when there is no '.' |
| CgiGateway.FailedScript | srcs/cgi_handler.cpp:153-158 | a non-zero exit code gives the fixed 500 page whatever the output |
| CgiGateway.CgiBodyAfterBlankLine | srcs/cgi_handler.cpp:161-183 | with a blank line the status is 200 "OK" and the body is exactly the output after it |
| CgiGateway.CgiOutputWithoutHeaders | srcs/cgi_handler.cpp:161-169 | without a blank line the whole output is the body, as text/html with 200 |
| CgiGateway.HeaderLinesStop | srcs/cgi_handler.cpp:188 | the first empty line ends header reading |
| CgiGateway.ColonlessLines | srcs/cgi_handler.cpp:193-194 | lines without ':' leave the response unchanged |
| CgiGateway.FieldLine | srcs/cgi_handler.cpp:189-202 | `name:value` sets the header `name` to the space-trimmed value |
| CgiGateway.TranslateOutput | srcs/cgi_handler.cpp:161-204 | the response built step by step is `CgiOutput` |
| CgiGateway.ApplyLines | srcs/cgi_handler.cpp:186-204 | the response after the header loop is `ApplyHeaderLines` |
| CgiGateway.ApplyLine | srcs/cgi_handler.cpp:189-203 | the response after one line is `ApplyHeaderLine` |
| HttpHandling.ErrorPage | srcs/http_handler.cpp:483-490 | the error page, from which `ErrorPageMessage` reads the message back |
| HttpHandling.ErrorPageMessage | srcs/http_handler.cpp:483-490 | the message can be read back from the error page |
| HttpHandling.GetMimeType | srcs/http_handler.cpp:460-481 | the type of the last extension, or application/octet-stream |
| HttpHandling.MimeForKnown | srcs/http_handler.cpp:464-480 | an extension gets a type other than octet-stream iff it is one of the known ones |
| HttpHandling.MimeTypeOfName | srcs/http_handler.cpp:460-481 | a name ending in a dot-led extension gets that extension's type |
| HttpHandling.MimeTypeWithoutDot | srcs/http_handler.cpp:461-463 | a name without a dot is application/octet-stream |
| HttpHandling.DirJoinParts | srcs/http_handler.cpp:114-118 | the join starts with the directory and ends with '/' and the name; exactly one '/' separates them, since its length is the two lengths plus one only when the directory lacks a trailing '/' |
| HttpHandling.UploadDir | srcs/http_handler.cpp:106-127 | an absolute upload_dir is used as it is; a relative one is under the root; with none, the root's "uploads" |
| HttpHandling.UploadDirEnds | srcs/http_handler.cpp:383-400 | the directory ends with the configured one, or with "uploads"; an absolute one is used unchanged, and a relative one is joined to the root with exactly one '/' |
| HttpHandling.HandleRequest | srcs/http_handler.cpp:22-50 | the location's allow-list is checked first, then the method picks the handler |
| HttpHandling.MethodCheckedFirst | srcs/http_handler.cpp:22-50 | a disallowed method is 405 before dispatch; an allowed unknown one is 501 |
| HttpHandling.HandlePost | srcs/http_handler.cpp:65-82 | the POST handler; `PostDispatch` characterises it |
| HttpHandling.PostDispatch | srcs/http_handler.cpp:69-81 | when `find("multipart/form-data")` succeeds on the content type and the location has an upload directory, the POST goes to the upload handler; any other POST is 200 with the body length at the end of the page, whatever the file system holds |
| HttpHandling.HandleDelete | srcs/http_handler.cpp:84-162 | the DELETE handler; `DeleteChecksFirst`, `DeleteTarget` and `DeleteFile` characterise it |
| HttpHandling.HandleGet | srcs/http_handler.cpp:52-63 | a redirecting location gives 301 before any file is looked at |
| HttpHandling.RedirectIgnoresFiles | srcs/http_handler.cpp:56-60 | the redirect answer is the same whatever the file system holds |
| HttpHandling.DeleteFile | srcs/http_handler.cpp:131-161 | 404 for a missing path, 400 for a non-file, then 200 or 500 on unlink, as `DeleteTarget` states for every valid name |
| HttpHandling.DeleteChecksFirst | srcs/http_handler.cpp:88-103 | outside "/uploads/" is 403, an empty name or one with ".." is 400, both independent of the file system |
| HttpHandling.DeleteTarget | srcs/http_handler.cpp:105-161 | a valid name addresses the upload directory, a '/' and the name: 404 when that path is missing, 400 when it is not a regular file, else it is unlinked, 200 when that succeeds and 500 otherwise |
| HttpHandling.ServeRegular | srcs/http_handler.cpp:216-245 | a readable file is 200 with its type and contents; HEAD gets its size and no body; unreadable is 403 |
| HttpHandling.MissingFile | srcs/http_handler.cpp:176-183 | a missing path is 404 with the error page |
| HttpHandling.ServeFile | srcs/http_handler.cpp:164-245 | the static file handler; `MissingFile`, `HeadHasNoBody`, `RegularFileServed` and `DirectoryIndexFirst` characterise it |
| HttpHandling.ServeDirectory | srcs/http_handler.cpp:184-213 | a directory's answer, characterised by `DirectoryIndexFirst` |
| HttpHandling.DirectoryIndexFirst | srcs/http_handler.cpp:184-213 | a regular index file is served whatever the location says; without one, the listing is 200 exactly when the location turns autoindex on, and the answer is 403 otherwise |
| HttpHandling.HeadHasNoBody | srcs/http_handler.cpp:164-245 | a HEAD answer has no body |
| HttpHandling.RegularFileServed | srcs/http_handler.cpp:164-245 | a regular file that cannot be read is 403 with the error page (no body for HEAD); a readable one is served whole, with its type; HEAD gets its size as Content-Length |
| HttpHandling.DirectoryListing | srcs/http_handler.cpp:247-271 | the listing page with one item per entry |
| HttpHandling.ListingItemsAppend | srcs/http_handler.cpp:256-266 | the items of two runs of entries are the items of each in turn |
| HttpHandling.ListingSkipsDot | srcs/http_handler.cpp:258-259 | "." is left out wherever it appears |
| HttpHandling.GenerateDirectoryListing | srcs/http_handler.cpp:247-271 | the page built step by step is `DirectoryListing` |
| HttpHandling.ListEntries | srcs/http_handler.cpp:256-266 | the readdir loop yields `ListingItems` |
| HttpHandling.FindDotDot | srcs/http_handler.cpp:330 | `find("..")` succeeds iff two dots are adjacent |
| HttpHandling.ValidFilename | srcs/http_handler.cpp:329-349 | a name is accepted iff it is 1..255 long, has no leading dot, no '/' or '\\', and no ".." |
| HttpHandling.ContentEnd | srcs/http_handler.cpp:375-378 | the end stays within [start, boundary]; everything it skipped is CR or LF; it stops after a byte that is neither |
| HttpHandling.TrimContentEnd | srcs/http_handler.cpp:375-378 | the loop's result is `ContentEnd` |
| HttpHandling.RefusalResponse | srcs/http_handler.cpp:298-373 | the answer to each refusal, as `RejectedIsBadRequest` and `InvalidNameRefused` characterise it |
| HttpHandling.RejectedIsBadRequest | srcs/http_handler.cpp:296-373 | every refusal of a multipart body is 400 "Bad Request" |
| HttpHandling.ParseUpload | srcs/http_handler.cpp:296-380 | the boundary, form data, filename and content steps, characterised by `AcceptedUpload`, `InvalidNameRefused` and `RejectedIsBadRequest` |
| HttpHandling.AcceptedUpload | srcs/http_handler.cpp:296-380 | an accepted upload has a valid filename; its content is the text from the first blank line after the form data up to the first boundary after it, less the CR and LF characters before that boundary, and it does not end with either |
| HttpHandling.FilenameAccepted | srcs/http_handler.cpp:316-380 | past the filename checks, the name is valid and the content is the text between the blank line and the boundary, less the line break before the boundary |
| HttpHandling.ContentAccepted | srcs/http_handler.cpp:351-380 | the filename is passed through; the content starts at the end of the blank line, is followed only by CR and LF characters up to the boundary, and does not end with either |
| HttpHandling.InvalidNameRefused | srcs/http_handler.cpp:325-349 | a name that fails a check is refused as `BadFilename` (the fixed invalid-filename page), whatever follows it |
| HttpHandling.UploadChecksFirst | srcs/http_handler.cpp:279-373 | a body over 10 MiB is 413 and a malformed one is 400, before the file system is touched |
| HttpHandling.UploadSaved | srcs/http_handler.cpp:383-423 | an accepted upload is 200 exactly when its content is written under its filename in the upload directory (made first when missing), and 500 otherwise |
| HttpHandling.HandleFileUpload | srcs/http_handler.cpp:273-426 | the upload handler; `UploadChecksFirst` and `UploadSaved` characterise its answers |
| HttpHandling.SaveUploadedFile | srcs/http_handler.cpp:428-458 | true iff the directory exists or is made, and the file is written in it; used by `UploadSaved` |

## Left out

- Sockets, `send`, `close` and logging are not modelled. `RemoveClient` and `HandleTimeouts`
  do not close descriptors or print (srcs/connection_manager.cpp:54, 69).
  `Connections.ErrorReply` gives the response that sendErrorResponse writes with `send`;
  the write itself is not modelled.
- The clock is a parameter. `time(NULL)` is the parameter `now` of `AddClient`,
  `HandleTimeouts` and `UpdateClientActivity`. The formatted Date text of `setDate` is the
  parameter `date` of `SetDate` and `ToString`.
- `revents` is never updated. Slots carry it only as the 0 that `addClient` stores.
- A `char` stands for one byte of a `std::string`. Content-Length is the body's length in
  characters (response.dfy, `Serialize` and `WithLength`), and `Strings.Less` compares
  characters. Both agree with the C++ only while every character is at most 255.
- `error_page` without a code reads an uninitialised `int` (srcs/config.cpp:116-118). The
  model stores the page under code 0 instead.
- Where the code departs from HTTP/1.1 (RFC 9110 and RFC 9112), the code is followed. HTTP/1.1
  would answer an idle client with 408 before closing it, match field names without regard
  to case, and read Content-Length only for requests that carry a body. The model evicts
  idle clients silently, keeps header names as written, and honours Content-Length for every
  method.
- Connections.Atoi: the model gives `atoi` a value for negative numbers and for overflow
  (wrapped to 32 bits) instead of excluding those inputs.
- Connections.CompleteWithoutLength: this covers only a header section that names neither
  spelling of Content-Length. A header that carries one is covered by `CompleteByLength`.
- Reading the configuration file is an input. `ParseConfig` takes the file's lines, or
  `None` when it cannot be opened.
- Process control in the CGI handler is an input. `pipe`, `fork`, `execve`, `waitpid` and
  the read loop are the parameter `exec`, which gives the run's outcome from the
  invocation. The read loop's truncation of output at a NUL byte is not modelled, and the
  process's own `environ` (srcs/cgi_handler.cpp:253-255) is not appended to the block.
  `vectorToCharArray` and `freeCharArray` only marshal memory.
- The file system is an input to `HttpHandling`. `stat`, reading, `readdir`, `unlink`,
  `mkdir` and the file write are fields of `FileSystem` that give their outcome. The
  effects of `unlink`, `mkdir` and the write on later calls are not tracked.
- HttpHandling.DirJoin: an empty directory is taken as not ending in '/'. The C++ reads
  `dir[length() - 1]` there (srcs/http_handler.cpp:115, 123, 188, 259, 389, 396), which is
  undefined for an empty string.
- The `Request` class of `srcs/` (headers/request.hpp) is not part of this model. The
  handlers take `Requests.RequestData`, with `getHeader` as `RequestData.Header`.
- `handleRequest` never reaches the CGI handler. The handler is modelled on its own, as
  the C++ has it.
- The handlers' results are responses, not their text. `Responses.Serialize` gives the
  text, and its properties (`Framing`, `EachHeaderOnce`) carry over.
