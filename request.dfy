/**
 * The request parser of request.cpp: the request line, the header lines up to the first
 * empty line and the body lines after it. The raw text is read with std::getline, modelled
 * by Strings.Lines; the tokens of the request line are read with `>>`, modelled by
 * Strings.NextWord.
 */
module Requests {
  import opened Wrappers
  import opened Strings

  /** The members of class Request. */
  datatype RequestData = RequestData(
    verb: string,
    path: string,
    version: string,
    headers: map<string, string>,
    body: string)
  {
    /** getHeader: the stored value, "" for an absent name. */
    function Header(key: string): string {
      if key in headers then headers[key] else ""
    }
  }

  /** Request(): every member empty. */
  const EmptyRequest := RequestData("", "", "", map[], "")

  // ---------------------------------------------------------------------------------------
  // The request line

  /** An input string stream: the text not read yet and the fail bit. */
  datatype Stream = Stream(rest: string, failed: bool)

  /**
   * `stream >> target` for a string target: the next token is stored and the stream moves
   * past it; with only white space left the fail bit is set and the target keeps its value;
   * a stream whose fail bit is set reads nothing.
   */
  function Extract(st: Stream, target: string): (r: (Stream, string))
    ensures !st.failed && NextWord(st.rest).Some? ==> r == (Stream(NextWord(st.rest).value.1, false), NextWord(st.rest).value.0)
    ensures st.failed || NextWord(st.rest).None? ==> r.0.failed && r.1 == target
  {
    if st.failed then (st, target)
    else match NextWord(st.rest)
      case None => (Stream(st.rest, true), target)
      case Some(w) => (Stream(w.1, false), w.0)
  }

  /** `firstLine >> method >> path >> version`, and whether the stream is still good. */
  function FirstLine(d: RequestData, line: string): (r: (bool, RequestData))
    ensures r.1.headers == d.headers && r.1.body == d.body
  {
    var (s1, verb) := Extract(Stream(line, false), d.verb);
    var (s2, path) := Extract(s1, d.path);
    var (s3, version) := Extract(s2, d.version);
    (!s3.failed, d.(verb := verb, path := path, version := version))
  }

  /**
   * The request line is accepted exactly when it holds at least three tokens, and then the
   * first three are the method, the path and the version; anything after them is ignored.
   */
  lemma FirstLineTokens(d: RequestData, line: string)
    ensures FirstLine(d, line).0 <==> |Words(line)| >= 3
    ensures FirstLine(d, line).0 ==>
      var r := FirstLine(d, line).1;
      r == d.(verb := Words(line)[0], path := Words(line)[1], version := Words(line)[2])
    ensures !FirstLine(d, line).0 ==>
      var r := FirstLine(d, line).1;
      r.version == d.version && r.headers == d.headers && r.body == d.body
  {
    var s0 := Stream(line, false);
    var (s1, v) := Extract(s0, d.verb);
    ExtractWords(s0, d.verb);
    if !s1.failed {
      var (s2, p) := Extract(s1, d.path);
      ExtractWords(s1, d.path);
      if !s2.failed {
        var (s3, w) := Extract(s2, d.version);
        ExtractWords(s2, d.version);
        if !s3.failed {
          Cons3(Words(line), v, p, w, Words(s1.rest), Words(s2.rest), Words(s3.rest));
        } else {
          assert |Words(line)| == 2;
        }
      } else {
        assert |Words(line)| == 1;
      }
    }
  }

  /** One extraction from a good stream takes the first of the remaining tokens. */
  lemma ExtractWords(st: Stream, target: string)
    requires !st.failed
    ensures var r := Extract(st, target);
      && (r.0.failed <==> Words(st.rest) == [])
      && (!r.0.failed ==> Words(st.rest) == [r.1] + Words(r.0.rest))
  {
    NextWordWords(st.rest);
  }

  lemma Cons3(s: seq<string>, a: string, b: string, c: string, s1: seq<string>, s2: seq<string>, s3: seq<string>)
    requires s == [a] + s1 && s1 == [b] + s2 && s2 == [c] + s3
    ensures |s| >= 3 && s[0] == a && s[1] == b && s[2] == c
  {
  }

  // ---------------------------------------------------------------------------------------
  // Header lines

  /** The line that ends the header section. */
  predicate IsHeaderEnd(line: string) {
    line == "" || line == "\r"
  }

  predicate IsValueBlank(c: char) {
    c == ' ' || c == '\t'
  }

  /** The value without its leading spaces and tabs. */
  function SkipValueBlanks(v: string): (r: string)
    ensures |r| <= |v| && r == v[|v| - |r|..]
    ensures forall i :: 0 <= i < |v| - |r| ==> IsValueBlank(v[i])
    ensures |r| == 0 || !IsValueBlank(r[0])
  {
    if |v| > 0 && IsValueBlank(v[0]) then SkipValueBlanks(v[1..]) else v
  }

  /**
   * A header value as stored: leading spaces and tabs removed, then one trailing '\r'. The
   * result never starts with a space or a tab.
   */
  function HeaderValue(v: string): (r: string)
    ensures var t := SkipValueBlanks(v);
      (|t| > 0 && t[|t| - 1] == '\r' ==> r + "\r" == t)
      && (!(|t| > 0 && t[|t| - 1] == '\r') ==> r == t)
    ensures |r| == 0 || !IsValueBlank(r[0])
  {
    var t := SkipValueBlanks(v);
    if |t| > 0 && t[|t| - 1] == '\r' then
      DropLast(t);
      t[..|t| - 1]
    else t
  }

  lemma DropLast(s: string)
    requires |s| > 0
    ensures s[..|s| - 1] + [s[|s| - 1]] == s
  {
  }

  lemma ColonAt(line: string, j: nat)
    ensures OccursAt(line, ":", j) <==> j < |line| && line[j] == ':'
  {
    if j < |line| {
      assert line[j..j + 1] == [line[j]];
    }
  }

  /**
   * A header line split at its first ':': the name verbatim, case kept, and the stored value.
   * None for a line without a colon.
   */
  function HeaderEntry(line: string): (r: Option<(string, string)>)
    ensures r.None? <==> ':' !in line
    ensures r.Some? ==> ColonSplit(line, r.value.0, r.value.1)
  {
    match IndexOf(line, ":", 0)
    case None =>
      NoColon(line);
      None
    case Some(c) =>
      FirstColon(line, c);
      ColonEntry(line, c);
      Some((line[..c], HeaderValue(line[c + 1..])))
  }

  /** `key` is what precedes the first ':' of `line`, and `value` what follows it, cleaned. */
  predicate ColonSplit(line: string, key: string, value: string) {
    && ':' !in key && |key| < |line| && line[|key|] == ':'
    && line[..|key|] == key
    && value == HeaderValue(line[|key| + 1..])
  }

  lemma ColonEntry(line: string, c: nat)
    requires c < |line| && line[c] == ':' && ':' !in line[..c]
    ensures ':' in line && ColonSplit(line, line[..c], HeaderValue(line[c + 1..]))
  {
  }

  lemma NoColon(line: string)
    requires IndexOf(line, ":", 0).None?
    ensures ':' !in line
  {
    forall j | 0 <= j < |line|
      ensures line[j] != ':'
    {
      ColonAt(line, j);
    }
  }

  lemma FirstColon(line: string, c: nat)
    requires IndexOf(line, ":", 0) == Some(c)
    ensures c < |line| && line[c] == ':' && ':' !in line[..c]
  {
    ColonAt(line, c);
    forall j | 0 <= j < c
      ensures line[..c][j] != ':'
    {
      ColonAt(line, j);
    }
  }

  // ---------------------------------------------------------------------------------------
  // The line loop

  /** What the loop after the request line carries from one line to the next. */
  datatype Reading = Reading(headers: map<string, string>, body: string, headersDone: bool)

  /** One body line: a '\n' before it only once the body holds something. */
  function AppendBodyLine(body: string, line: string): string {
    (if body != "" then body + "\n" else body) + line
  }

  /** One line of the loop. */
  function LineStep(r: Reading, line: string): Reading {
    if !r.headersDone then
      if IsHeaderEnd(line) then r.(headersDone := true)
      else match HeaderEntry(line)
        case None => r
        case Some(kv) => r.(headers := r.headers[kv.0 := kv.1])
    else r.(body := AppendBodyLine(r.body, line))
  }

  /** The loop over `lines`. */
  function ReadLines(r: Reading, lines: seq<string>): Reading {
    if |lines| == 0 then r else LineStep(ReadLines(r, lines[..|lines| - 1]), lines[|lines| - 1])
  }

  /**
   * Request::parse: false for an input with no line at all and for a request line with
   * fewer than three tokens; true otherwise, with the headers and body read from the rest.
   */
  function ParseRequest(d: RequestData, raw: string): (r: (bool, RequestData))
    ensures raw == "" ==> r == (false, d)
    ensures r.0 <==> |Lines(raw)| > 0 && |Words(Lines(raw)[0])| >= 3
  {
    ParseLines(d, Lines(raw))
  }

  /** The same over the input already cut into lines. */
  function ParseLines(d: RequestData, lines: seq<string>): (r: (bool, RequestData))
    ensures r.0 <==> |lines| > 0 && |Words(lines[0])| >= 3
  {
    if |lines| == 0 then (false, d)
    else
      FirstLineTokens(d, lines[0]);
      var first := FirstLine(d, lines[0]);
      if !first.0 then first
      else
        var end := ReadLines(Reading(d.headers, d.body, false), lines[1..]);
        (true, first.1.(headers := end.headers, body := end.body))
  }

  /** The outcome of a rejected request line: what the extractions stored before failing. */
  lemma ParseLinesRejected(d: RequestData, lines: seq<string>)
    requires |lines| > 0 && !FirstLine(d, lines[0]).0
    ensures ParseLines(d, lines) == FirstLine(d, lines[0])
  {
  }

  /** One more line of the loop. */
  lemma ReadLinesSnoc(r: Reading, lines: seq<string>, i: nat)
    requires i < |lines|
    ensures ReadLines(r, lines[..i + 1]) == LineStep(ReadLines(r, lines[..i]), lines[i])
  {
    TakeSnoc(lines, i);
  }

  lemma ReadLinesAll(r: Reading, lines: seq<string>)
    ensures ReadLines(r, lines[..|lines|]) == ReadLines(r, lines)
  {
    TakeAll(lines);
  }

  /** The outcome of an accepted request line, with the rest of the lines read on top of it. */
  lemma ParseLinesAccepted(d: RequestData, lines: seq<string>)
    requires |lines| > 0 && FirstLine(d, lines[0]).0
    ensures var end := ReadLines(Reading(d.headers, d.body, false), lines[1..]);
      ParseLines(d, lines) == (true, FirstLine(d, lines[0]).1.(headers := end.headers, body := end.body))
  {
  }

  // ---------------------------------------------------------------------------------------
  // The header section and the body

  /** The headers the lines `hs` store on top of `h`, in order. */
  function Headers(h: map<string, string>, hs: seq<string>): map<string, string> {
    if |hs| == 0 then h
    else
      var prior := Headers(h, hs[..|hs| - 1]);
      match HeaderEntry(hs[|hs| - 1])
      case None => prior
      case Some(kv) => prior[kv.0 := kv.1]
  }

  /** The body the lines `bs` build on top of `b`. */
  function Body(b: string, bs: seq<string>): string {
    if |bs| == 0 then b else AppendBodyLine(Body(b, bs[..|bs| - 1]), bs[|bs| - 1])
  }

  predicate NoHeaderEnd(lines: seq<string>) {
    forall i :: 0 <= i < |lines| ==> !IsHeaderEnd(lines[i])
  }

  lemma {:induction false} ReadLinesAppend(r: Reading, a: seq<string>, b: seq<string>)
    ensures ReadLines(r, a + b) == ReadLines(ReadLines(r, a), b)
    decreases |b|
  {
    if |b| == 0 {
      assert a + b == a;
    } else {
      assert (a + b)[..|a + b| - 1] == a + b[..|b| - 1];
      ReadLinesAppend(r, a, b[..|b| - 1]);
    }
  }

  /** Before the end of the header section every line is a header line or is skipped. */
  lemma {:induction false} ReadHeaderLines(r: Reading, hs: seq<string>)
    requires !r.headersDone && NoHeaderEnd(hs)
    ensures ReadLines(r, hs) == Reading(Headers(r.headers, hs), r.body, false)
    decreases |hs|
  {
    if |hs| > 0 {
      ReadHeaderLines(r, hs[..|hs| - 1]);
    }
  }

  /** After it every line is a body line. */
  lemma {:induction false} ReadBodyLines(r: Reading, bs: seq<string>)
    requires r.headersDone
    ensures ReadLines(r, bs) == r.(body := Body(r.body, bs))
    decreases |bs|
  {
    if |bs| > 0 {
      ReadBodyLines(r, bs[..|bs| - 1]);
    }
  }

  /**
   * The header section ends at the first empty or "\r" line: the lines before it are
   * header lines, that line itself is dropped, and every line after it is a body line,
   * even one that looks like a header.
   */
  lemma HeaderSection(r: Reading, lines: seq<string>, k: nat)
    requires !r.headersDone
    requires k < |lines| && IsHeaderEnd(lines[k]) && NoHeaderEnd(lines[..k])
    ensures ReadLines(r, lines) == Reading(Headers(r.headers, lines[..k]), Body(r.body, lines[k + 1..]), true)
  {
    assert lines == lines[..k] + [lines[k]] + lines[k + 1..];
    ReadLinesAppend(r, lines[..k] + [lines[k]], lines[k + 1..]);
    ReadLinesAppend(r, lines[..k], [lines[k]]);
    ReadHeaderLines(r, lines[..k]);
    var mid := Reading(Headers(r.headers, lines[..k]), r.body, true);
    assert ReadLines(r, lines[..k] + [lines[k]]) == mid;
    ReadBodyLines(mid, lines[k + 1..]);
  }

  /** Without an ending line every line after the request line is a header line and the body stays as it was. */
  lemma NoBodyWithoutEnd(r: Reading, lines: seq<string>)
    requires !r.headersDone && NoHeaderEnd(lines)
    ensures ReadLines(r, lines).headers == Headers(r.headers, lines)
    ensures ReadLines(r, lines).body == r.body
  {
    ReadHeaderLines(r, lines);
  }

  /** The key of a header line, if it has one. */
  predicate HasKey(line: string, key: string) {
    HeaderEntry(line).Some? && HeaderEntry(line).value.0 == key
  }

  /** The last header line with a given name decides its value: later duplicates overwrite. */
  lemma {:induction false} LastHeaderWins(h: map<string, string>, hs: seq<string>, i: nat)
    requires i < |hs| && HeaderEntry(hs[i]).Some?
    requires forall j :: i < j < |hs| ==> !HasKey(hs[j], HeaderEntry(hs[i]).value.0)
    ensures HeaderEntry(hs[i]).value.0 in Headers(h, hs)
    ensures Headers(h, hs)[HeaderEntry(hs[i]).value.0] == HeaderEntry(hs[i]).value.1
    decreases |hs|
  {
    if i < |hs| - 1 {
      var init := hs[..|hs| - 1];
      assert init[i] == hs[i];
      LastHeaderWins(h, init, i);
      HeadersOther(h, hs, HeaderEntry(hs[i]).value.0);
    } else {
      HeadersLast(h, hs);
    }
  }

  /** The last line, when it is a header line, sets its name. */
  lemma HeadersLast(h: map<string, string>, hs: seq<string>)
    requires |hs| > 0 && HeaderEntry(hs[|hs| - 1]).Some?
    ensures var kv := HeaderEntry(hs[|hs| - 1]).value;
      kv.0 in Headers(h, hs) && Headers(h, hs)[kv.0] == kv.1
  {
  }

  /** A last line that does not carry `key` leaves `key` as the other lines left it. */
  lemma HeadersOther(h: map<string, string>, hs: seq<string>, key: string)
    requires |hs| > 0 && !HasKey(hs[|hs| - 1], key)
    ensures key in Headers(h, hs) <==> key in Headers(h, hs[..|hs| - 1])
    ensures key in Headers(h, hs) ==> Headers(h, hs)[key] == Headers(h, hs[..|hs| - 1])[key]
  {
  }

  /** A name no header line carries keeps whatever it had before. */
  lemma {:induction false} UnnamedHeader(h: map<string, string>, hs: seq<string>, key: string)
    requires forall j :: 0 <= j < |hs| ==> !HasKey(hs[j], key)
    ensures key in Headers(h, hs) <==> key in h
    ensures key in h ==> Headers(h, hs)[key] == h[key]
    decreases |hs|
  {
    if |hs| > 0 {
      UnnamedHeader(h, hs[..|hs| - 1], key);
      HeadersOther(h, hs, key);
    }
  }

  /** The body lines with the empty lines before the first non-empty one removed. */
  function DropLeadingEmpty(bs: seq<string>): (r: seq<string>)
    ensures |r| == 0 || r[0] != ""
    decreases |bs|
  {
    if |bs| == 0 then []
    else if bs[0] == "" then DropLeadingEmpty(bs[1..])
    else bs
  }

  predicate AllEmpty(bs: seq<string>) {
    forall i :: 0 <= i < |bs| ==> bs[i] == ""
  }

  lemma {:induction false} DropLeadingEmptySnoc(bs: seq<string>, l: string)
    ensures AllEmpty(bs) ==> DropLeadingEmpty(bs + [l]) == (if l == "" then [] else [l])
    ensures !AllEmpty(bs) ==> DropLeadingEmpty(bs + [l]) == DropLeadingEmpty(bs) + [l]
    decreases |bs|
  {
    if |bs| == 0 {
      assert bs + [l] == [l];
    } else {
      assert (bs + [l])[1..] == bs[1..] + [l];
      DropLeadingEmptySnoc(bs[1..], l);
    }
  }

  /** The body stays empty exactly as long as every body line is empty. */
  lemma {:induction false} BodyEmpty(bs: seq<string>)
    ensures Body("", bs) == "" <==> AllEmpty(bs)
    decreases |bs|
  {
    if |bs| > 0 {
      BodyEmpty(bs[..|bs| - 1]);
      if Body("", bs[..|bs| - 1]) != "" {
        assert |AppendBodyLine(Body("", bs[..|bs| - 1]), bs[|bs| - 1])| > 0;
      }
    }
  }

  /**
   * Starting from an empty body, the body is the body lines joined by "\n" once the empty
   * lines before the first non-empty one are dropped.
   */
  lemma {:induction false} BodyJoin(bs: seq<string>)
    ensures Body("", bs) == Join(DropLeadingEmpty(bs), "\n")
    decreases |bs|
  {
    if |bs| > 0 {
      var init := bs[..|bs| - 1];
      var l := bs[|bs| - 1];
      assert bs == init + [l];
      BodyJoin(init);
      BodyEmpty(init);
      DropLeadingEmptySnoc(init, l);
      if !AllEmpty(init) {
        JoinSnoc(DropLeadingEmpty(init), l, "\n");
      }
    }
  }

  /**
   * The headers and body of an accepted request: header lines up to the first ending line,
   * body lines after it; with no ending line, header lines throughout and the body as it was.
   */
  lemma ParsedSections(d: RequestData, raw: string, k: nat)
    requires ParseRequest(d, raw).0
    requires k < |Lines(raw)| - 1
    requires IsHeaderEnd(Lines(raw)[1..][k]) && NoHeaderEnd(Lines(raw)[1..][..k])
    ensures ParseRequest(d, raw).1.headers == Headers(d.headers, Lines(raw)[1..][..k])
    ensures ParseRequest(d, raw).1.body == Body(d.body, Lines(raw)[1..][k + 1..])
  {
    var lines := Lines(raw);
    FirstLineTokens(d, lines[0]);
    HeaderSection(Reading(d.headers, d.body, false), lines[1..], k);
  }

  lemma ParsedWithoutEnd(d: RequestData, raw: string)
    requires ParseRequest(d, raw).0
    requires NoHeaderEnd(Lines(raw)[1..])
    ensures ParseRequest(d, raw).1.headers == Headers(d.headers, Lines(raw)[1..])
    ensures ParseRequest(d, raw).1.body == d.body
  {
    var lines := Lines(raw);
    FirstLineTokens(d, lines[0]);
    NoBodyWithoutEnd(Reading(d.headers, d.body, false), lines[1..]);
  }

  /** The request line of an accepted request gives the method, path and version. */
  lemma ParsedRequestLine(d: RequestData, raw: string)
    requires ParseRequest(d, raw).0
    ensures var w := Words(Lines(raw)[0]);
      var r := ParseRequest(d, raw).1;
      r.verb == w[0] && r.path == w[1] && r.version == w[2]
  {
    FirstLineTokens(d, Lines(raw)[0]);
  }

  // ---------------------------------------------------------------------------------------
  // The class

  /** class Request. */
  class Request {
    var verb: string
    var path: string
    var version: string
    var headers: map<string, string>
    var body: string

    function Data(): RequestData
      reads this
    {
      RequestData(verb, path, version, headers, body)
    }

    constructor()
      ensures Data() == EmptyRequest
    {
      verb, path, version, headers, body := "", "", "", map[], "";
    }

    /**
     * Request::parse over the raw text: the members take what the parse of their current
     * values yields.
     */
    method Parse(raw: string) returns (ok: bool)
      modifies this`verb, this`path, this`version, this`headers, this`body
      ensures (ok, Data()) == ParseRequest(old(Data()), raw)
    {
      var v, p, w, h, b;
      ok, v, p, w, h, b := ParseFrom(verb, path, version, headers, body, raw);
      verb, path, version, headers, body := v, p, w, h, b;
    }

    /**
     * The steps of Request::parse on the members' values: the three extractions of the
     * request line, each storing what it read, then the loop over the remaining lines.
     */
    static method ParseFrom(verb: string, path: string, version: string,
                            headers: map<string, string>, body: string, raw: string)
      returns (ok: bool, verb': string, path': string, version': string,
               headers': map<string, string>, body': string)
      ensures (ok, RequestData(verb', path', version', headers', body'))
        == ParseRequest(RequestData(verb, path, version, headers, body), raw)
    {
      ghost var d := RequestData(verb, path, version, headers, body);
      verb', path', version', headers', body' := verb, path, version, headers, body;
      var lines := Lines(raw);
      if |lines| == 0 {
        return false, verb', path', version', headers', body';
      }
      var st := Stream(lines[0], false);
      st, verb' := ExtractInto(st, verb);
      st, path' := ExtractInto(st, path);
      st, version' := ExtractInto(st, version);
      if st.failed {
        ParseLinesRejected(d, lines);
        return false, verb', path', version', headers', body';
      }
      var rest := lines[1..];
      var r := Reading(headers, body, false);
      ghost var start := r;
      for i := 0 to |rest|
        invariant r == ReadLines(start, rest[..i])
      {
        ReadLinesSnoc(start, rest, i);
        r := ReadLine(r, rest[i]);
      }
      ReadLinesAll(start, rest);
      headers', body' := r.headers, r.body;
      ParseLinesAccepted(d, lines);
      ok := true;
    }

    /** One `>>` into a string member. */
    static method ExtractInto(st: Stream, target: string) returns (st': Stream, value: string)
      ensures (st', value) == Extract(st, target)
    {
      st', value := st, target;
      if !st.failed {
        var w := NextWord(st.rest);
        if w.None? {
          st' := Stream(st.rest, true);
        } else {
          st', value := Stream(w.value.1, false), w.value.0;
        }
      }
    }

    /** One pass of the getline loop. */
    static method ReadLine(r: Reading, line: string) returns (r': Reading)
      ensures r' == LineStep(r, line)
    {
      r' := r;
      if !r.headersDone {
        if line == "" || line == "\r" {
          r' := r.(headersDone := true);
          return;
        }
        var colon := IndexOf(line, ":", 0);
        if colon.Some? {
          var key := line[..colon.value];
          var value := TrimValue(line[colon.value + 1..]);
          r' := r.(headers := r.headers[key := value]);
        }
      } else {
        var body := r.body;
        if body != "" {
          body := body + "\n";
        }
        r' := r.(body := body + line);
      }
    }

    /** The two erasures applied to a header value. */
    static method TrimValue(v: string) returns (value: string)
      ensures value == HeaderValue(v)
    {
      value := v;
      while |value| > 0 && (value[0] == ' ' || value[0] == '\t')
        invariant SkipValueBlanks(value) == SkipValueBlanks(v)
      {
        value := value[1..];
      }
      assert value == SkipValueBlanks(value) == SkipValueBlanks(v);
      if |value| > 0 && value[|value| - 1] == '\r' {
        value := value[..|value| - 1];
      }
    }

    /** Request::getHeader: the stored value, "" for an absent name. */
    function GetHeader(key: string): (value: string)
      reads this
      ensures key in headers ==> value == headers[key]
      ensures key !in headers ==> value == ""
    {
      Data().Header(key)
    }
  }
}
