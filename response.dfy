/**
 * The response builder of srcs/response.cpp: a Response object whose setters update its
 * status, header map and body, and whose toString writes the status line, the headers in
 * std::map key order, the three default headers that the caller did not set, a blank line
 * and the body. The current time, which toString formats into the Date header, is a
 * parameter.
 */
module Responses {
  import opened Wrappers
  import opened Strings

  /** The state of a Response: what the setters change and toString serialises. */
  datatype ResponseData = ResponseData(
    statusCode: int,
    statusMessage: string,
    headers: map<string, string>,
    body: string)
  {
    function WithStatus(code: int, message: string): ResponseData {
      this.(statusCode := code, statusMessage := message)
    }

    function WithHeader(key: string, value: string): ResponseData {
      this.(headers := headers[key := value])
    }

    function WithBody(b: string): ResponseData {
      this.(body := b)
    }

    function WithContentType(mimeType: string): ResponseData {
      WithHeader("Content-Type", mimeType)
    }

    function WithRedirect(location: string, code: int): ResponseData {
      WithStatus(code, RedirectMessage(code)).WithHeader("Location", location)
    }

    function WithCookie(name: string, value: string, path: string): ResponseData {
      WithHeader("Set-Cookie", CookieValue(name, value, path))
    }
  }

  /** A new Response: 200 "OK", no headers, empty body. */
  const Initial := ResponseData(200, "OK", map[], "")

  const SERVER_SOFTWARE := "Webserv/1.0"

  function RedirectMessage(code: int): string {
    if code == 301 then "Moved Permanently" else "Found"
  }

  function CookieValue(name: string, value: string, path: string): string {
    name + "=" + value + "; Path=" + path
  }

  /** A header field: name and value. */
  type Field = (string, string)

  function StatusText(d: ResponseData): string {
    "HTTP/1.1 " + IntToString(d.statusCode) + " " + d.statusMessage
  }

  function FieldText(f: Field): string {
    f.0 + ": " + f.1
  }

  function FieldTexts(fs: seq<Field>): (r: seq<string>)
    ensures |r| == |fs| && forall i :: 0 <= i < |fs| ==> r[i] == FieldText(fs[i])
  {
    seq(|fs|, i requires 0 <= i < |fs| => FieldText(fs[i]))
  }

  /** The entries of `m` for `keys`, in the order of `keys`. */
  function Entries(m: map<string, string>, keys: seq<string>): (r: seq<Field>)
    requires forall k :: k in keys ==> k in m
    ensures |r| == |keys| && forall i :: 0 <= i < |keys| ==> r[i] == (keys[i], m[keys[i]])
  {
    seq(|keys|, i requires 0 <= i < |keys| => (keys[i], m[keys[i]]))
  }

  /** The entries of a header map in the order std::map iterates them. */
  function SortedEntries(m: map<string, string>): seq<Field> {
    Entries(m, SortedKeys(m.Keys))
  }

  /** `fs`, followed by the field `name: value` unless `m` sets `name` itself. */
  function AddDefault(fs: seq<Field>, m: map<string, string>, name: string, value: string): seq<Field> {
    if name in m then fs else fs + [(name, value)]
  }

  /**
   * The header fields toString writes: the map's in key order, then Content-Length (the
   * body's size), Server and Date, each only when the caller has not set it.
   */
  function Fields(d: ResponseData, date: string): seq<Field> {
    var withServer := AddDefault(WithLength(d), d.headers, "Server", SERVER_SOFTWARE);
    AddDefault(withServer, d.headers, "Date", date)
  }

  /** What the three default headers would say. */
  function DefaultMap(d: ResponseData, date: string): map<string, string> {
    map["Content-Length" := NatToString(|d.body|), "Server" := SERVER_SOFTWARE, "Date" := date]
  }

  /** The status line, then each field written as "name: value", every line ended by CRLF. */
  function HeaderBlock(status: string, fs: seq<Field>): string {
    if |fs| == 0 then status + CRLF
    else HeaderBlock(status, fs[..|fs| - 1]) + fs[|fs| - 1].0 + ": " + fs[|fs| - 1].1 + CRLF
  }

  /** Response::toString. */
  function Serialize(d: ResponseData, date: string): string {
    HeaderBlock(StatusText(d), Fields(d, date)) + CRLF + d.body
  }

  lemma HeaderBlockSnoc(status: string, fs: seq<Field>, f: Field)
    ensures HeaderBlock(status, fs + [f]) == HeaderBlock(status, fs) + f.0 + ": " + f.1 + CRLF
  {
    assert (fs + [f])[..|fs|] == fs;
  }

  /** The header block is the status line and the field texts, each ended by CRLF. */
  lemma {:induction false} HeadLines(status: string, fs: seq<Field>)
    ensures CrlfLines([status] + FieldTexts(fs)) == HeaderBlock(status, fs)
    decreases |fs|
  {
    var ls := [status] + FieldTexts(fs);
    if |fs| == 0 {
      assert ls == [] + [status];
      CrlfLinesSnoc([], status);
    } else {
      var init := fs[..|fs| - 1];
      var f := fs[|fs| - 1];
      HeadLines(status, init);
      assert ls[..|ls| - 1] == [status] + FieldTexts(init);
      var h := HeaderBlock(status, init);
      assert h + FieldText(f) + CRLF == h + f.0 + ": " + f.1 + CRLF;
    }
  }

  /** The map a sequence of fields denotes, later fields overriding earlier ones. */
  function AsMap(fs: seq<Field>): map<string, string> {
    if |fs| == 0 then map[] else AsMap(fs[..|fs| - 1])[fs[|fs| - 1].0 := fs[|fs| - 1].1]
  }

  predicate DistinctNames(fs: seq<Field>) {
    forall i, j :: 0 <= i < j < |fs| ==> fs[i].0 != fs[j].0
  }

  lemma {:induction false} AsMapNames(fs: seq<Field>)
    ensures forall i :: 0 <= i < |fs| ==> fs[i].0 in AsMap(fs)
    decreases |fs|
  {
    if |fs| > 0 {
      AsMapNames(fs[..|fs| - 1]);
    }
  }

  /** Appending a field whose name is new keeps the names distinct. */
  lemma DistinctSnoc(fs: seq<Field>, f: Field)
    requires DistinctNames(fs) && f.0 !in AsMap(fs)
    ensures DistinctNames(fs + [f])
    ensures AsMap(fs + [f]) == AsMap(fs)[f.0 := f.1]
  {
    AsMapNames(fs);
    var r := fs + [f];
    assert r[..|fs|] == fs;
    forall i, j | 0 <= i < j < |r|
      ensures r[i].0 != r[j].0
    {
      if j == |fs| {
        assert r[i].0 == fs[i].0;
      }
    }
  }

  lemma {:induction false} EntriesAsMap(m: map<string, string>, keys: seq<string>)
    requires forall k :: k in keys ==> k in m
    ensures forall k :: k in AsMap(Entries(m, keys)) <==> k in keys
    ensures forall k :: k in AsMap(Entries(m, keys)) ==> AsMap(Entries(m, keys))[k] == m[k]
    decreases |keys|
  {
    if |keys| > 0 {
      var init := keys[..|keys| - 1];
      EntriesAsMap(m, init);
      assert Entries(m, keys)[..|keys| - 1] == Entries(m, init);
      assert forall k :: k in keys <==> k in init || k == keys[|keys| - 1];
    }
  }

  lemma SortedEntriesDistinct(m: map<string, string>)
    ensures DistinctNames(SortedEntries(m))
  {
    var keys := SortedKeys(m.Keys);
    var sorted := SortedEntries(m);
    SortedDistinct(keys);
    forall i, j | 0 <= i < j < |sorted|
      ensures sorted[i].0 != sorted[j].0
    {
      assert sorted[i].0 == keys[i] && sorted[j].0 == keys[j];
    }
  }

  lemma SortedEntriesMap(m: map<string, string>)
    ensures AsMap(SortedEntries(m)) == m
  {
    var keys := SortedKeys(m.Keys);
    EntriesAsMap(m, keys);
  }

  lemma EmptyUnion(m: map<string, string>)
    ensures map[] + m == m
  {
  }

  lemma SortedEntriesMember(m: map<string, string>)
    ensures forall k :: k in m ==> (k, m[k]) in SortedEntries(m)
  {
    var keys := SortedKeys(m.Keys);
    var sorted := SortedEntries(m);
    forall k | k in m
      ensures (k, m[k]) in sorted
    {
      var i :| 0 <= i < |keys| && keys[i] == k;
      assert sorted[i] == (k, m[k]);
    }
  }

  /** One default step keeps the names distinct and adds the default under the caller's map. */
  lemma AddDefaultStep(fs: seq<Field>, m: map<string, string>, defaults: map<string, string>, name: string, value: string)
    requires DistinctNames(fs) && AsMap(fs) == defaults + m && name !in defaults
    ensures DistinctNames(AddDefault(fs, m, name, value))
    ensures AsMap(AddDefault(fs, m, name, value)) == defaults[name := value] + m
    ensures forall f :: f in fs ==> f in AddDefault(fs, m, name, value)
    ensures name !in m ==> (name, value) in AddDefault(fs, m, name, value)
  {
    if name !in m {
      DistinctSnoc(fs, (name, value));
      assert (fs + [(name, value)])[|fs|] == (name, value);
    }
  }

  lemma DefaultNamesDiffer()
    ensures "Server" != "Content-Length" && "Date" != "Content-Length" && "Date" != "Server"
  {
    assert |"Content-Length"| == 14 && |"Server"| == 6 && |"Date"| == 4;
  }

  /**
   * Every header is written exactly once: the names of the fields toString writes are
   * pairwise distinct, and together they say exactly what the caller's headers say, with
   * Content-Length (the body's size), Server and Date filling in the names the caller left
   * unset.
   */
  lemma EachHeaderOnce(d: ResponseData, date: string)
    ensures DistinctNames(Fields(d, date))
    ensures AsMap(Fields(d, date)) == DefaultMap(d, date) + d.headers
  {
    var m := d.headers;
    var withServer := AddDefault(WithLength(d), m, "Server", SERVER_SOFTWARE);
    ServerStep(d);
    DefaultNamesDiffer();
    AddDefaultStep(withServer, m, map["Content-Length" := NatToString(|d.body|), "Server" := SERVER_SOFTWARE], "Date", date);
  }

  /** The sorted fields followed by the Content-Length default. */
  function WithLength(d: ResponseData): seq<Field> {
    AddDefault(SortedEntries(d.headers), d.headers, "Content-Length", NatToString(|d.body|))
  }

  lemma LengthStep(d: ResponseData)
    ensures DistinctNames(WithLength(d))
    ensures AsMap(WithLength(d)) == map["Content-Length" := NatToString(|d.body|)] + d.headers
  {
    SortedEntriesDistinct(d.headers);
    SortedEntriesMap(d.headers);
    EmptyUnion(d.headers);
    AddDefaultStep(SortedEntries(d.headers), d.headers, map[], "Content-Length", NatToString(|d.body|));
  }

  lemma ServerStep(d: ResponseData)
    ensures DistinctNames(AddDefault(WithLength(d), d.headers, "Server", SERVER_SOFTWARE))
    ensures AsMap(AddDefault(WithLength(d), d.headers, "Server", SERVER_SOFTWARE))
      == map["Content-Length" := NatToString(|d.body|), "Server" := SERVER_SOFTWARE] + d.headers
  {
    LengthStep(d);
    DefaultNamesDiffer();
    AddDefaultStep(WithLength(d), d.headers, map["Content-Length" := NatToString(|d.body|)], "Server", SERVER_SOFTWARE);
  }

  /**
   * What toString writes for each name: the value the caller set last, or else the
   * default for Content-Length (the body's size), Server and Date.
   */
  lemma HeaderWritten(d: ResponseData, date: string)
    ensures forall k :: k in d.headers ==> (k, d.headers[k]) in Fields(d, date)
    ensures "Content-Length" !in d.headers ==> ("Content-Length", NatToString(|d.body|)) in Fields(d, date)
    ensures "Server" !in d.headers ==> ("Server", SERVER_SOFTWARE) in Fields(d, date)
    ensures "Date" !in d.headers ==> ("Date", date) in Fields(d, date)
  {
    var fs := Fields(d, date);
    EachHeaderOnce(d, date);
    forall k | k in AsMap(fs)
      ensures (k, AsMap(fs)[k]) in fs
    {
      AsMapMember(fs, k);
    }
  }

  /** The value a sequence of fields gives a name is the value of one of its fields. */
  lemma {:induction false} AsMapMember(fs: seq<Field>, k: string)
    requires k in AsMap(fs)
    ensures (k, AsMap(fs)[k]) in fs
    decreases |fs|
  {
    var init := fs[..|fs| - 1];
    if fs[|fs| - 1].0 != k {
      AsMapMember(init, k);
      assert forall f :: f in init ==> f in fs;
    }
  }

  /** No status message, header name, header value or date with a line break in it. */
  predicate CleanHead(d: ResponseData, date: string) {
    NoLineBreak(d.statusMessage) && NoLineBreak(date)
    && forall k :: k in d.headers ==> NoLineBreak(k) && NoLineBreak(d.headers[k])
  }

  predicate CleanField(f: Field) {
    NoLineBreak(f.0) && NoLineBreak(f.1)
  }

  predicate CleanFields(fs: seq<Field>) {
    forall i :: 0 <= i < |fs| ==> CleanField(fs[i])
  }

  /**
   * The serialisation starts with the status line and ends with a blank line and the body
   * verbatim; when nothing in the head contains a line break, the first blank line of the
   * output is the one toString writes, so a client splitting there gets the body back.
   */
  lemma Framing(d: ResponseData, date: string)
    ensures StartsWith(Serialize(d, date), StatusText(d) + CRLF)
    ensures EndsWith(Serialize(d, date), CRLFCRLF + d.body)
    ensures CleanHead(d, date) ==>
      BlankLineEnd(Serialize(d, date), 0) == Some(|Serialize(d, date)| - |d.body|)
  {
    var ls := [StatusText(d)] + FieldTexts(Fields(d, date));
    var head := CrlfLines(ls);
    HeadLines(StatusText(d), Fields(d, date));
    CrlfLinesPrefix(ls);
    CrlfLinesEnd(ls);
    WireShape(head, d.body, StatusText(d) + CRLF);
    if CleanHead(d, date) {
      BodyAfterBlankLine(d, date);
    }
  }

  lemma BodyAfterBlankLine(d: ResponseData, date: string)
    requires CleanHead(d, date)
    ensures BlankLineEnd(Serialize(d, date), 0) == Some(|Serialize(d, date)| - |d.body|)
  {
    var ls := [StatusText(d)] + FieldTexts(Fields(d, date));
    var head := CrlfLines(ls);
    var wire := Serialize(d, date);
    HeadLines(StatusText(d), Fields(d, date));
    assert wire == head + CRLF + d.body;
    HeadLinesClean(d, date);
    FirstBlankLine(ls, d.body);
    assert BlankLineEnd(head + CRLF + d.body, 0) == Some(|head| + 2);
  }

  lemma WireShape(head: string, body: string, first: string)
    requires StartsWith(head, first) && EndsWith(head, CRLF)
    ensures StartsWith(head + CRLF + body, first)
    ensures EndsWith(head + CRLF + body, CRLFCRLF + body)
  {
    var wire := head + CRLF + body;
    assert wire[..|first|] == head[..|first|];
    assert wire[|wire| - |CRLFCRLF + body|..] == head[|head| - 2..] + CRLF + body;
  }

  lemma HeadLinesClean(d: ResponseData, date: string)
    requires CleanHead(d, date)
    ensures forall l :: l in [StatusText(d)] + FieldTexts(Fields(d, date)) ==> |l| > 0 && NoLineBreak(l)
  {
    var fs := Fields(d, date);
    var ls := [StatusText(d)] + FieldTexts(fs);
    FieldsClean(d, date);
    StatusTextClean(d);
    forall l | l in ls
      ensures |l| > 0 && NoLineBreak(l)
    {
      var i :| 0 <= i < |ls| && ls[i] == l;
      if i > 0 {
        assert CleanField(fs[i - 1]);
        FieldTextClean(fs[i - 1]);
      }
    }
  }

  lemma NoLineBreakConcat(a: string, b: string)
    requires NoLineBreak(a) && NoLineBreak(b)
    ensures NoLineBreak(a + b)
  {
    forall i | 0 <= i < |a + b|
      ensures (a + b)[i] != '\r' && (a + b)[i] != '\n'
    {
      if i >= |a| {
        assert (a + b)[i] == b[i - |a|];
      }
    }
  }

  lemma FieldTextClean(f: Field)
    requires CleanField(f)
    ensures |FieldText(f)| > 0 && NoLineBreak(FieldText(f))
  {
    NoLineBreakConcat(f.0, ": ");
    NoLineBreakConcat(f.0 + ": ", f.1);
  }

  lemma StatusTextClean(d: ResponseData)
    requires NoLineBreak(d.statusMessage)
    ensures NoLineBreak(StatusText(d))
  {
    var n := IntToString(d.statusCode);
    assert NoLineBreak(n) by {
      var s := NatToString(if d.statusCode < 0 then -d.statusCode else d.statusCode);
      assert forall j :: 0 <= j < |s| ==> IsDigit(s[j]);
    }
    NoLineBreakConcat("HTTP/1.1 ", n);
    NoLineBreakConcat("HTTP/1.1 " + n, " ");
    NoLineBreakConcat("HTTP/1.1 " + n + " ", d.statusMessage);
  }

  lemma {:induction false} CrlfLinesPrefix(ls: seq<string>)
    requires |ls| > 0
    ensures StartsWith(CrlfLines(ls), ls[0] + CRLF)
    decreases |ls|
  {
    if |ls| > 1 {
      CrlfLinesPrefix(ls[..|ls| - 1]);
    }
  }

  lemma CrlfLinesEnd(ls: seq<string>)
    requires |ls| > 0
    ensures EndsWith(CrlfLines(ls), CRLF)
  {
  }

  lemma AddDefaultClean(fs: seq<Field>, m: map<string, string>, name: string, value: string)
    requires CleanFields(fs) && CleanField((name, value))
    ensures CleanFields(AddDefault(fs, m, name, value))
  {
    if name !in m {
      var r := fs + [(name, value)];
      assert forall i :: 0 <= i < |fs| ==> r[i] == fs[i];
    }
  }

  lemma FieldsClean(d: ResponseData, date: string)
    requires CleanHead(d, date)
    ensures CleanFields(Fields(d, date))
  {
    var m := d.headers;
    LengthClean(d, date);
    assert CleanField(("Server", SERVER_SOFTWARE));
    AddDefaultClean(WithLength(d), m, "Server", SERVER_SOFTWARE);
    var withServer := AddDefault(WithLength(d), m, "Server", SERVER_SOFTWARE);
    AddDefaultClean(withServer, m, "Date", date);
  }

  lemma LengthClean(d: ResponseData, date: string)
    requires CleanHead(d, date)
    ensures CleanFields(WithLength(d))
  {
    var m := d.headers;
    SortedEntriesClean(m);
    var length := NatToString(|d.body|);
    assert forall j :: 0 <= j < |length| ==> IsDigit(length[j]);
    AddDefaultClean(SortedEntries(m), m, "Content-Length", length);
  }

  lemma SortedEntriesClean(m: map<string, string>)
    requires forall k :: k in m ==> NoLineBreak(k) && NoLineBreak(m[k])
    ensures CleanFields(SortedEntries(m))
  {
    var keys := SortedKeys(m.Keys);
    var sorted := SortedEntries(m);
    forall i | 0 <= i < |sorted|
      ensures CleanField(sorted[i])
    {
      assert keys[i] in keys;
      assert sorted[i] == (keys[i], m[keys[i]]);
    }
  }


  /** The Response object of srcs/response.cpp. */
  class Response {
    var statusCode: int
    var statusMessage: string
    var headers: map<string, string>
    var body: string

    function Data(): ResponseData
      reads this
    {
      ResponseData(statusCode, statusMessage, headers, body)
    }

    constructor()
      ensures Data() == Initial
    {
      statusCode, statusMessage, headers, body := 200, "OK", map[], "";
    }

    method SetStatus(code: int, message: string)
      modifies this
      ensures statusCode == code && statusMessage == message
      ensures headers == old(headers) && body == old(body)
      ensures Data() == old(Data()).WithStatus(code, message)
    {
      statusCode, statusMessage := code, message;
    }

    /** Sets `key` to `value`, replacing any earlier value for exactly that key. */
    method SetHeader(key: string, value: string)
      modifies this
      ensures headers == old(headers)[key := value]
      ensures statusCode == old(statusCode) && statusMessage == old(statusMessage) && body == old(body)
      ensures Data() == old(Data()).WithHeader(key, value)
    {
      headers := headers[key := value];
    }

    method SetBody(b: string)
      modifies this
      ensures body == b
      ensures statusCode == old(statusCode) && statusMessage == old(statusMessage) && headers == old(headers)
      ensures Data() == old(Data()).WithBody(b)
    {
      body := b;
    }

    /** Same as SetHeader("Content-Type", mimeType). */
    method SetContentType(mimeType: string)
      modifies this
      ensures headers == old(headers)["Content-Type" := mimeType]
      ensures statusCode == old(statusCode) && statusMessage == old(statusMessage) && body == old(body)
      ensures Data() == old(Data()).WithContentType(mimeType)
    {
      SetHeader("Content-Type", mimeType);
    }

    /** 301 reads "Moved Permanently", any other code "Found"; Location is the target. */
    method SetRedirect(location: string, code: int)
      modifies this
      ensures statusCode == code
      ensures statusMessage == (if code == 301 then "Moved Permanently" else "Found")
      ensures headers == old(headers)["Location" := location] && body == old(body)
      ensures Data() == old(Data()).WithRedirect(location, code)
    {
      SetStatus(code, if code == 301 then "Moved Permanently" else "Found");
      SetHeader("Location", location);
    }

    method SetCookie(name: string, value: string, path: string)
      modifies this
      ensures headers == old(headers)["Set-Cookie" := name + "=" + value + "; Path=" + path]
      ensures statusCode == old(statusCode) && statusMessage == old(statusMessage) && body == old(body)
      ensures Data() == old(Data()).WithCookie(name, value, path)
    {
      var cookieValue := name + "=" + value + "; Path=" + path;
      SetHeader("Set-Cookie", cookieValue);
    }

    /** setDate, with the formatted current time as a parameter. */
    method SetDate(date: string)
      modifies this
      ensures Data() == old(Data()).WithHeader("Date", date)
    {
      SetHeader("Date", date);
    }

    method SetServer(serverName: string)
      modifies this
      ensures Data() == old(Data()).WithHeader("Server", serverName)
    {
      SetHeader("Server", serverName);
    }

    /** toString: `date` is the text strftime would produce for the current time. */
    method ToString(date: string) returns (wire: string)
      ensures wire == Serialize(Data(), date)
    {
      ghost var d := Data();
      var status := "HTTP/1.1 " + IntToString(statusCode) + " " + statusMessage;
      assert status == StatusText(d);
      wire := status + "\r\n";
      var hs, b := headers, body;
      assert hs == d.headers && b == d.body;
      var keys := SortedKeys(hs.Keys);
      ghost var sorted := Entries(hs, keys);
      assert sorted[..0] == [];
      for i := 0 to |keys|
        invariant wire == HeaderBlock(status, sorted[..i])
      {
        assert sorted[i] == (keys[i], hs[keys[i]]);
        TakeSnoc(sorted, i);
        HeaderBlockSnoc(status, sorted[..i], sorted[i]);
        wire := wire + keys[i] + ": " + hs[keys[i]] + "\r\n";
      }
      assert sorted[..|keys|] == sorted == SortedEntries(d.headers);
      ghost var written := sorted;
      if "Content-Length" !in hs {
        HeaderBlockSnoc(status, written, ("Content-Length", NatToString(|b|)));
        wire := wire + "Content-Length" + ": " + NatToString(|b|) + "\r\n";
      }
      written := AddDefault(written, hs, "Content-Length", NatToString(|b|));
      if "Server" !in hs {
        HeaderBlockSnoc(status, written, ("Server", SERVER_SOFTWARE));
        wire := wire + "Server" + ": " + SERVER_SOFTWARE + "\r\n";
      }
      written := AddDefault(written, hs, "Server", SERVER_SOFTWARE);
      if "Date" !in hs {
        HeaderBlockSnoc(status, written, ("Date", date));
        wire := wire + "Date" + ": " + date + "\r\n";
      }
      written := AddDefault(written, hs, "Date", date);
      wire := wire + "\r\n";
      wire := wire + b;
    }
  }

}
