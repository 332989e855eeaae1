/**
 * The server configuration of srcs/config.cpp: the `Location` blocks, the server-wide
 * settings, the line-by-line parser of the configuration file, the longest-prefix choice of
 * a location for a request path and the method allow-list. The file is given as its lines
 * (None when it cannot be opened); reading it is not modelled.
 */
module Configuration {
  import opened Wrappers
  import opened Strings

  /** struct Location. */
  datatype Location = Location(
    path: string,
    allowMethods: seq<string>,
    autoindex: bool,
    index: string,
    root: string,
    redirect: string,
    cgiPath: seq<string>,
    cgiExt: seq<string>,
    uploadDir: string)

  /** Location(): everything empty and autoindex off. */
  const EmptyLocation := Location("", [], false, "", "", "", [], [], "")

  /** The fields of class Config that parseConfig sets. */
  datatype Settings = Settings(
    port: int,
    serverName: string,
    host: string,
    root: string,
    index: string,
    errorPages: map<int, string>,
    clientMaxBodySize: int,
    locations: seq<Location>)

  /** The values the Config constructor starts from. */
  const DefaultSettings := Settings(8080, "localhost", "127.0.0.1", "./", "index.html", map[], 1000000, [])

  const UINT16_MAX := 0xFFFF
  const SIZE_MAX := 0xFFFF_FFFF_FFFF_FFFF
  const INT_MIN := -0x8000_0000
  const INT_MAX := 0x7FFF_FFFF

  // ---------------------------------------------------------------------------------------
  // trim and removeSemicolon

  /** The characters trim removes. */
  predicate IsBlank(c: char) {
    c == ' ' || c == '\t' || c == '\n' || c == '\r'
  }

  /** find_first_not_of(" \t\n\r"). */
  function FirstNotBlank(s: string): (r: Option<nat>)
    ensures r.Some? ==> r.value < |s| && !IsBlank(s[r.value])
    ensures r.Some? ==> forall i :: 0 <= i < r.value ==> IsBlank(s[i])
    ensures r.None? ==> forall i :: 0 <= i < |s| ==> IsBlank(s[i])
  {
    if |s| == 0 then None
    else if !IsBlank(s[0]) then Some(0)
    else match FirstNotBlank(s[1..])
      case None => None
      case Some(i) => Some(i + 1)
  }

  /** find_last_not_of(" \t\n\r"). */
  function LastNotBlank(s: string): (r: Option<nat>)
    ensures r.Some? ==> r.value < |s| && !IsBlank(s[r.value])
    ensures r.Some? ==> forall i :: r.value < i < |s| ==> IsBlank(s[i])
    ensures r.None? ==> forall i :: 0 <= i < |s| ==> IsBlank(s[i])
  {
    if |s| == 0 then None
    else if !IsBlank(s[|s| - 1]) then Some(|s| - 1)
    else LastNotBlank(s[..|s| - 1])
  }

  /** trim: `s` without its leading and trailing blanks; "" when it holds nothing else. */
  function Trim(s: string): (r: string)
    ensures |r| <= |s|
    ensures r == [] <==> forall i :: 0 <= i < |s| ==> IsBlank(s[i])
    ensures |r| > 0 ==> !IsBlank(r[0]) && !IsBlank(r[|r| - 1])
  {
    match FirstNotBlank(s)
    case None => ""
    case Some(start) =>
      var end := LastNotBlank(s).value;
      assert start <= end;
      s[start..end + 1]
  }

  predicate AllBlank(s: string) {
    forall i :: 0 <= i < |s| ==> IsBlank(s[i])
  }

  /**
   * Trim is the unique middle part: whenever `s` is blanks, then a text that neither starts
   * nor ends with a blank, then blanks, trim returns that text.
   */
  lemma TrimSplit(pre: string, mid: string, post: string)
    requires AllBlank(pre) && AllBlank(post)
    requires |mid| == 0 || (!IsBlank(mid[0]) && !IsBlank(mid[|mid| - 1]))
    ensures Trim(pre + mid + post) == mid
  {
    var s := pre + mid + post;
    if |mid| == 0 {
      forall i | 0 <= i < |s|
        ensures IsBlank(s[i])
      {
        if i >= |pre| {
          assert s[i] == post[i - |pre|];
        }
      }
    } else {
      assert s[|pre|] == mid[0];
      assert s[|pre| + |mid| - 1] == mid[|mid| - 1];
      forall i | 0 <= i < |pre|
        ensures IsBlank(s[i])
      {
        assert s[i] == pre[i];
      }
      forall i | |pre| + |mid| <= i < |s|
        ensures IsBlank(s[i])
      {
        assert s[i] == post[i - |pre| - |mid|];
      }
      var start := FirstNotBlank(s).value;
      var end := LastNotBlank(s).value;
      assert start == |pre|;
      assert end == |pre| + |mid| - 1;
      assert s[start..end + 1] == mid;
    }
  }

  /** Trimming twice trims nothing more. */
  lemma TrimIdempotent(s: string)
    ensures Trim(Trim(s)) == Trim(s)
  {
    var t := Trim(s);
    assert [] + t + [] == t;
    TrimSplit([], t, []);
  }

  /** removeSemicolon: one trailing ';' removed, the text returned unchanged otherwise. */
  function RemoveSemicolon(s: string): (r: string)
    ensures |s| > 0 && s[|s| - 1] == ';' ==> r + ";" == s
    ensures !(|s| > 0 && s[|s| - 1] == ';') ==> r == s
  {
    if |s| > 0 && s[|s| - 1] == ';' then s[..|s| - 1] else s
  }

  /** Only one semicolon goes: a value written with its terminator reads back as written. */
  lemma RemoveSemicolonAppended(v: string)
    ensures RemoveSemicolon(v + ";") == v
  {
    assert (v + ";")[..|v|] == v;
  }

  // ---------------------------------------------------------------------------------------
  // Numeric extraction

  /** The outcome of `stream >> n` on a text that holds more than white space. */
  datatype Extraction = Extraction(value: int, ok: bool, rest: string)

  /**
   * `stream >> n` for an integer type whose range is [lo, hi] (libstdc++): after white
   * space, an optional sign and decimal digits. No digits stores 0 and fails; a value out
   * of range stores the nearest bound and fails; for an unsigned type (lo == 0) a minus
   * sign negates modulo hi + 1. None when the text holds nothing but white space: the
   * extraction then fails without storing anything.
   */
  function Extract(s: string, lo: int, hi: nat): (r: Option<Extraction>)
    requires lo <= 0
    ensures r.None? <==> |SkipSpaces(s)| == 0
    ensures r.Some? ==> lo <= r.value.value <= hi
  {
    var t := SkipSpaces(s);
    if |t| == 0 then None
    else
      var negative := t[0] == '-';
      var u := if t[0] == '-' || t[0] == '+' then t[1..] else t;
      var n := LeadingDigits(u);
      if n == 0 then Some(Extraction(0, false, u))
      else
        var v: int := DigitsValue(u[..n]);
        if lo == 0 then
          if v > hi then Some(Extraction(hi, false, u[n..]))
          else Some(Extraction(if negative then (hi + 1 - v) % (hi + 1) else v, true, u[n..]))
        else
          var signed := if negative then -v else v;
          if signed > hi then Some(Extraction(hi, false, u[n..]))
          else if signed < lo then Some(Extraction(lo, false, u[n..]))
          else Some(Extraction(signed, true, u[n..]))
  }

  /**
   * A plain decimal number after white space, within the type's range, is stored as its
   * value, the extraction succeeds, and the text after the digits is left to read.
   */
  lemma ExtractDecimal(ws: string, d: string, rest: string, lo: int, hi: nat)
    requires lo <= 0
    requires forall i :: 0 <= i < |ws| ==> IsSpace(ws[i])
    requires |d| > 0 && AllDigits(d) && DigitsValue(d) <= hi
    requires |rest| == 0 || !IsDigit(rest[0])
    ensures Extract(ws + d + rest, lo, hi) == Some(Extraction(DigitsValue(d), true, rest))
  {
    SkipToDigits(ws, d, rest);
    LeadingDigitsOf(d, rest);
    ExtractDigitsFirst(ws + d + rest, d, rest, lo, hi);
  }

  /** Formatted input skips the white space in front of a number. */
  lemma SkipToDigits(ws: string, d: string, rest: string)
    requires forall i :: 0 <= i < |ws| ==> IsSpace(ws[i])
    requires |d| > 0 && IsDigit(d[0])
    ensures SkipSpaces(ws + d + rest) == d + rest
  {
    var t := d + rest;
    assert ws + d + rest == ws + t;
    assert t[0] == d[0];
    SkipSpacesOf(ws, t);
  }

  /** Text whose first word, after white space, starts with the digits `d` is read as them. */
  lemma ExtractDigitsFirst(s: string, d: string, rest: string, lo: int, hi: nat)
    requires lo <= 0
    requires SkipSpaces(s) == d + rest && LeadingDigits(d + rest) == |d|
    requires |d| > 0 && AllDigits(d) && DigitsValue(d) <= hi
    ensures Extract(s, lo, hi) == Some(Extraction(DigitsValue(d), true, rest))
  {
    var t := d + rest;
    assert t[0] == d[0];
    assert t[..|d|] == d;
    assert t[|d|..] == rest;
  }

  /** `stream >> target` for an integer target: `target` stays as it was only when no text is left. */
  function NumberOr(rest: string, lo: int, hi: nat, target: int): int
    requires lo <= 0
  {
    match Extract(rest, lo, hi)
    case None => target
    case Some(e) => e.value
  }

  /** `stream >> target` for a string target: the next word, or `target` when none is left. */
  function WordOr(rest: string, target: string): string {
    match NextWord(rest)
    case None => target
    case Some(w) => w.0
  }

  /** Every word with its trailing ';' removed. */
  function RemoveSemicolons(words: seq<string>): (r: seq<string>)
    ensures |r| == |words|
    ensures forall i :: 0 <= i < |words| ==> r[i] == RemoveSemicolon(words[i])
  {
    seq(|words|, i requires 0 <= i < |words| => RemoveSemicolon(words[i]))
  }

  lemma RemoveSemicolonsSnoc(words: seq<string>, w: string)
    ensures RemoveSemicolons(words + [w]) == RemoveSemicolons(words) + [RemoveSemicolon(w)]
  {
    assert |RemoveSemicolons(words + [w])| == |RemoveSemicolons(words) + [RemoveSemicolon(w)]|;
  }

  /** A word-by-word read of `rest` that has read `read` and has `iss` left ends with no word left. */
  lemma WordsRead(rest: string, read: seq<string>, iss: string)
    requires Words(rest) == read + Words(iss)
    requires NextWord(iss).None?
    ensures Words(rest) == read
  {
    NextWordWords(iss);
    assert read + [] == read;
  }

  /** One more word of `rest` read, with its ';' removed, onto `base`. */
  lemma WordRead(rest: string, read: seq<string>, iss: string, base: seq<string>)
    requires Words(rest) == read + Words(iss)
    requires NextWord(iss).Some?
    ensures var w := NextWord(iss).value;
      Words(rest) == (read + [w.0]) + Words(w.1)
      && base + RemoveSemicolons(read) + [RemoveSemicolon(w.0)] == base + RemoveSemicolons(read + [w.0])
  {
    var w := NextWord(iss).value;
    NextWordWords(iss);
    AppendAssoc(read, [w.0], Words(w.1));
    RemoveSemicolonsSnoc(read, w.0);
    AppendAssoc(base, RemoveSemicolons(read), [RemoveSemicolon(w.0)]);
  }



  // ---------------------------------------------------------------------------------------
  // parseConfig as a function of the lines

  /** The parser's state between lines: the settings, the open block and whether one is open. */
  datatype ParseState = ParseState(settings: Settings, current: Location, inBlock: bool)

  function Start(s: Settings): ParseState {
    ParseState(s, EmptyLocation, false)
  }

  /** The open block appended to the locations. */
  function Flush(st: ParseState): Settings {
    st.settings.(locations := st.settings.locations + [st.current])
  }

  /** The settings with the open block, if any, stored: at a `location` line and at the end
   * of the file. */
  function Finish(st: ParseState): Settings {
    if st.inBlock then Flush(st) else st.settings
  }

  /** The directives parseConfig recognises. */
  datatype Keyword =
    | ServerBlock | LocationBlock | CloseBlock | Listen | ServerName | Host | Root | Index
    | ClientMaxBodySize | AllowMethods | Autoindex | CgiPath | CgiExt | UploadDir | ErrorPage
    | Unknown

  /** The chain of comparisons that selects a directive's branch. */
  function KeywordOf(directive: string): Keyword {
    if directive == "server" then ServerBlock
    else if directive == "location" then LocationBlock
    else if directive == "}" then CloseBlock
    else if directive == "listen" then Listen
    else if directive == "server_name" then ServerName
    else if directive == "host" then Host
    else if directive == "root" then Root
    else if directive == "index" then Index
    else if directive == "client_max_body_size" then ClientMaxBodySize
    else if directive == "allow_methods" then AllowMethods
    else if directive == "autoindex" then Autoindex
    else if directive == "cgi_path" then CgiPath
    else if directive == "cgi_ext" then CgiExt
    else if directive == "upload_dir" then UploadDir
    else if directive == "error_page" then ErrorPage
    else Unknown
  }

  /** The key and page `iss >> code >> page` reads for error_page. */
  function ErrorPageEntry(rest: string): (int, string) {
    match Extract(rest, INT_MIN, INT_MAX)
    case None => (0, "")
    case Some(e) => (e.value, if e.ok then WordOr(e.rest, "") else "")
  }

  /** The path a `location` line opens a block for. */
  function LocationPath(rest: string): string {
    RemoveSemicolon(WordOr(rest, ""))
  }

  /**
   * What a directive other than `location` and `}` does to the server-wide settings; the
   * stored locations are never among them.
   */
  function SettingsEffect(s: Settings, kw: Keyword, rest: string, inBlock: bool): (r: Settings)
    ensures r.locations == s.locations
  {
    match kw
    case Listen => s.(port := NumberOr(rest, 0, UINT16_MAX, s.port))
    case ServerName => s.(serverName := RemoveSemicolon(WordOr(rest, s.serverName)))
    case Host => s.(host := RemoveSemicolon(WordOr(rest, s.host)))
    case Root => if inBlock then s else s.(root := RemoveSemicolon(WordOr(rest, "")))
    case Index => if inBlock then s else s.(index := RemoveSemicolon(WordOr(rest, "")))
    case ClientMaxBodySize =>
      s.(clientMaxBodySize := NumberOr(rest, 0, SIZE_MAX, s.clientMaxBodySize))
    case ErrorPage =>
      var (code, page) := ErrorPageEntry(rest);
      s.(errorPages := s.errorPages[code := RemoveSemicolon(page)])
    case _ => s
  }

  /**
   * What a directive other than `location` and `}` does to the open block: nothing outside
   * a block, and never its path or its redirect.
   */
  function LocationEffect(cur: Location, kw: Keyword, rest: string, inBlock: bool): (r: Location)
    ensures !inBlock ==> r == cur
    ensures r.path == cur.path && r.redirect == cur.redirect
  {
    if !inBlock then cur
    else match kw
      case Root => cur.(root := RemoveSemicolon(WordOr(rest, "")))
      case Index => cur.(index := RemoveSemicolon(WordOr(rest, "")))
      case AllowMethods => cur.(allowMethods := cur.allowMethods + RemoveSemicolons(Words(rest)))
      case Autoindex => cur.(autoindex := RemoveSemicolon(WordOr(rest, "")) == "on")
      case CgiPath => cur.(cgiPath := cur.cgiPath + [RemoveSemicolon(WordOr(rest, ""))])
      case CgiExt => cur.(cgiExt := cur.cgiExt + [RemoveSemicolon(WordOr(rest, ""))])
      case UploadDir => cur.(uploadDir := RemoveSemicolon(WordOr(rest, cur.uploadDir)))
      case _ => cur
  }

  /**
   * The effect of one directive, `rest` being the text after it on the line: `location`
   * stores any open block and opens a new one, `}` stores the open block and closes it.
   */
  function Directive(st: ParseState, kw: Keyword, rest: string): ParseState {
    match kw
    case LocationBlock =>
      ParseState(Finish(st), EmptyLocation.(path := LocationPath(rest)), true)
    case CloseBlock =>
      if st.inBlock then ParseState(Flush(st), st.current, false) else st
    case _ =>
      ParseState(SettingsEffect(st.settings, kw, rest, st.inBlock),
                 LocationEffect(st.current, kw, rest, st.inBlock), st.inBlock)
  }

  /**
   * The directive a line holds after trim, with the text after it: None for an empty line
   * or a comment.
   */
  function LineDirective(rawLine: string): Option<(Keyword, string)> {
    var line := Trim(rawLine);
    if line == [] || line[0] == '#' then None
    else
      match NextWord(line)
      case None => Some((KeywordOf(""), ""))
      case Some(w) => Some((KeywordOf(w.0), w.1))
  }

  /** One line of the file. */
  function Step(st: ParseState, rawLine: string): ParseState {
    match LineDirective(rawLine)
    case None => st
    case Some(d) => Directive(st, d.0, d.1)
  }

  /** The state after the lines, one step per line. */
  function Run(st: ParseState, lines: seq<string>): ParseState {
    if |lines| == 0 then st else Step(Run(st, lines[..|lines| - 1]), lines[|lines| - 1])
  }

  /** The settings after a whole file. */
  function ParseLines(s: Settings, lines: seq<string>): Settings {
    Finish(Run(Start(s), lines))
  }

  // ---------------------------------------------------------------------------------------
  // Properties of parseConfig

  /** Blank lines and comment lines change nothing. */
  lemma SkippedLine(st: ParseState, line: string)
    requires Trim(line) == [] || Trim(line)[0] == '#'
    ensures Step(st, line) == st
  {
  }

  /** Whether a line is a `location` line, and if so the path of the block it opens. */
  function OpenedPath(rawLine: string): Option<string> {
    match LineDirective(rawLine)
    case Some(d) => if d.0 == LocationBlock then Some(LocationPath(d.1)) else None
    case None => None
  }

  /** The paths of the blocks the lines open, in file order. */
  function OpenedPaths(lines: seq<string>): seq<string> {
    if |lines| == 0 then []
    else
      var p := OpenedPath(lines[|lines| - 1]);
      OpenedPaths(lines[..|lines| - 1]) + (if p.Some? then [p.value] else [])
  }

  function Paths(locs: seq<Location>): (r: seq<string>)
    ensures |r| == |locs|
    ensures forall i :: 0 <= i < |locs| ==> r[i] == locs[i].path
  {
    seq(|locs|, i requires 0 <= i < |locs| => locs[i].path)
  }

  /** The stored paths, followed by the open block's path if a block is open. */
  function Pending(st: ParseState): seq<string> {
    Paths(st.settings.locations) + (if st.inBlock then [st.current.path] else [])
  }

  lemma PathsSnoc(locs: seq<Location>, l: Location)
    ensures Paths(locs + [l]) == Paths(locs) + [l.path]
  {
  }

  /** No directive other than `location` and `}` touches the stored locations or the open path. */
  lemma DirectivePending(st: ParseState, kw: Keyword, rest: string)
    ensures kw == LocationBlock ==>
      Pending(Directive(st, kw, rest)) == Pending(st) + [LocationPath(rest)]
    ensures kw != LocationBlock ==> Pending(Directive(st, kw, rest)) == Pending(st)
  {
    var r := Directive(st, kw, rest);
    if kw == LocationBlock {
      var newBlock := EmptyLocation.(path := LocationPath(rest));
      assert r == ParseState(Finish(st), newBlock, true);
      if st.inBlock {
        PathsSnoc(st.settings.locations, st.current);
        assert Paths(r.settings.locations) == Pending(st);
      } else {
        assert Paths(r.settings.locations) == Pending(st);
      }
      assert r.current.path == LocationPath(rest);
    } else if kw == CloseBlock && st.inBlock {
      PathsSnoc(st.settings.locations, st.current);
    }
  }

  lemma StepPending(st: ParseState, line: string)
    ensures Pending(Step(st, line)) ==
      Pending(st) + (if OpenedPath(line).Some? then [OpenedPath(line).value] else [])
  {
    match LineDirective(line)
    case None =>
      assert Pending(st) + [] == Pending(st);
    case Some(d) =>
      DirectivePending(st, d.0, d.1);
  }

  lemma {:induction false} RunPending(st: ParseState, lines: seq<string>)
    ensures Pending(Run(st, lines)) == Pending(st) + OpenedPaths(lines)
    decreases |lines|
  {
    if |lines| > 0 {
      var init := lines[..|lines| - 1];
      RunPending(st, init);
      StepPending(Run(st, init), lines[|lines| - 1]);
    }
  }

  /**
   * Every `location` line yields exactly one stored location, flushed by the next `location`
   * line, by `}` or by the end of the file; they are stored in file order, after any
   * locations already present.
   */
  lemma LocationsInFileOrder(s: Settings, lines: seq<string>)
    ensures Paths(ParseLines(s, lines).locations) == Paths(s.locations) + OpenedPaths(lines)
  {
    RunPending(Start(s), lines);
    StartPending(s);
    FinishPending(Run(Start(s), lines));
  }

  lemma StartPending(s: Settings)
    ensures Pending(Start(s)) == Paths(s.locations)
  {
    assert Pending(Start(s)) == Paths(s.locations) + [];
  }

  lemma FinishPending(st: ParseState)
    ensures Paths(Finish(st).locations) == Pending(st)
  {
    if st.inBlock {
      PathsSnoc(st.settings.locations, st.current);
    } else {
      assert Pending(st) == Paths(st.settings.locations) + [];
    }
  }

  /** `root` and `index` set the open block's field inside a block and the server's outside. */
  lemma RootScope(st: ParseState, rest: string)
    ensures var r := Directive(st, Root, rest);
      var p := RemoveSemicolon(WordOr(rest, ""));
      r.inBlock == st.inBlock
      && (st.inBlock ==> r.settings == st.settings && r.current == st.current.(root := p))
      && (!st.inBlock ==> r.current == st.current && r.settings == st.settings.(root := p))
  {
  }

  lemma IndexScope(st: ParseState, rest: string)
    ensures var r := Directive(st, Index, rest);
      var p := RemoveSemicolon(WordOr(rest, ""));
      r.inBlock == st.inBlock
      && (st.inBlock ==> r.settings == st.settings && r.current == st.current.(index := p))
      && (!st.inBlock ==> r.current == st.current && r.settings == st.settings.(index := p))
  {
  }

  /** Location-only directives outside a block, and a `}` with no open block, change nothing. */
  lemma IgnoredOutsideBlock(st: ParseState, kw: Keyword, rest: string)
    requires !st.inBlock
    requires kw in {AllowMethods, Autoindex, CgiPath, CgiExt, UploadDir, CloseBlock}
    ensures Directive(st, kw, rest) == st
  {
  }

  /** No directive ever sets a location's redirect. */
  lemma NoRedirect(s: Settings, lines: seq<string>)
    requires forall i :: 0 <= i < |s.locations| ==> s.locations[i].redirect == ""
    ensures forall i :: 0 <= i < |ParseLines(s, lines).locations| ==> ParseLines(s, lines).locations[i].redirect == ""
  {
    RunNoRedirect(Start(s), lines);
  }

  predicate NoRedirects(st: ParseState) {
    st.current.redirect == ""
    && forall i :: 0 <= i < |st.settings.locations| ==> st.settings.locations[i].redirect == ""
  }

  lemma StepNoRedirect(st: ParseState, line: string)
    requires NoRedirects(st)
    ensures NoRedirects(Step(st, line))
  {
    match LineDirective(line)
    case None =>
    case Some(d) =>
      var r := Directive(st, d.0, d.1);
      if d.0 == LocationBlock || d.0 == CloseBlock {
        if st.inBlock {
          assert r.settings.locations == st.settings.locations + [st.current];
        }
      } else {
        assert r.settings.locations == st.settings.locations;
      }
  }

  lemma {:induction false} RunNoRedirect(st: ParseState, lines: seq<string>)
    requires NoRedirects(st)
    ensures NoRedirects(Run(st, lines))
    decreases |lines|
  {
    if |lines| > 0 {
      RunNoRedirect(st, lines[..|lines| - 1]);
      StepNoRedirect(Run(st, lines[..|lines| - 1]), lines[|lines| - 1]);
    }
  }

  // ---------------------------------------------------------------------------------------
  // findLocation and isMethodAllowed as functions

  /** `loc` is a non-empty literal prefix of `path`: the locations findLocation may choose. */
  predicate Matches(loc: string, path: string) {
    |loc| > 0 && StartsWith(path, loc)
  }

  /** path.find(loc) == 0 holds exactly when `loc` is a prefix of `path`. */
  lemma FindAtZero(path: string, loc: string)
    ensures IndexOf(path, loc, 0) == Some(0) <==> StartsWith(path, loc)
  {
    if StartsWith(path, loc) {
      IndexOfIs(path, loc, 0, 0);
    }
  }

  /**
   * The location findLocation picks among `locs`: the longest matching path, the first of
   * several equally long ones.
   */
  function BestLocation(locs: seq<Location>, path: string): (r: Option<nat>)
    ensures r.None? <==> forall j :: 0 <= j < |locs| ==> !Matches(locs[j].path, path)
    ensures r.Some? ==> r.value < |locs| && Matches(locs[r.value].path, path)
    ensures r.Some? ==> forall j :: 0 <= j < |locs| && Matches(locs[j].path, path) ==>
      |locs[j].path| <= |locs[r.value].path|
    ensures r.Some? ==> forall j :: 0 <= j < r.value && Matches(locs[j].path, path) ==>
      |locs[j].path| < |locs[r.value].path|
  {
    if |locs| == 0 then None
    else
      var prev := BestLocation(locs[..|locs| - 1], path);
      var last := |locs| - 1;
      var bestLength := if prev.Some? then |locs[prev.value].path| else 0;
      if StartsWith(path, locs[last].path) && |locs[last].path| > bestLength then Some(last) else prev
  }

  /** findLocation's answer as the location itself. */
  function LocationFor(locs: seq<Location>, path: string): Option<Location> {
    match BestLocation(locs, path)
    case None => None
    case Some(i) => Some(locs[i])
  }

  /** isMethodAllowed: no location or an empty list allows everything, else the list decides. */
  predicate MethodAllowed(verb: string, loc: Option<Location>) {
    loc.None? || |loc.value.allowMethods| == 0 || verb in loc.value.allowMethods
  }

  // ---------------------------------------------------------------------------------------
  // The class

  /** class Config. */
  class Config {
    var configFile: string
    var port: int
    var serverName: string
    var host: string
    var root: string
    var index: string
    var errorPages: map<int, string>
    var clientMaxBodySize: int
    var locations: seq<Location>

    function Values(): Settings
      reads this
    {
      Settings(port, serverName, host, root, index, errorPages, clientMaxBodySize, locations)
    }

    constructor(configFile: string)
      ensures this.configFile == configFile
      ensures Values() == DefaultSettings
    {
      this.configFile := configFile;
      port := 8080;
      serverName := "localhost";
      host := "127.0.0.1";
      root := "./";
      index := "index.html";
      errorPages := map[];
      clientMaxBodySize := 1000000;
      locations := [];
    }

    /**
     * parseConfig over the file's lines (None when the file cannot be opened): false only
     * when it cannot be opened, and then nothing changes.
     */
    method ParseConfig(file: Option<seq<string>>) returns (ok: bool)
      modifies this
      ensures ok <==> file.Some?
      ensures configFile == old(configFile)
      ensures file.None? ==> Values() == old(Values())
      ensures file.Some? ==> Values() == ParseLines(old(Values()), file.value)
    {
      if file.None? {
        return false;
      }
      var lines := file.value;
      var currentLocation := EmptyLocation;
      var inLocationBlock := false;
      for i := 0 to |lines|
        invariant configFile == old(configFile)
        invariant ParseState(Values(), currentLocation, inLocationBlock)
          == Run(Start(old(Values())), lines[..i])
      {
        TakeSnoc(lines, i);
        currentLocation, inLocationBlock := ApplyLine(lines[i], currentLocation, inLocationBlock);
      }
      assert lines[..|lines|] == lines;
      if inLocationBlock {
        locations := locations + [currentLocation];
      }
      return true;
    }

    /** One pass of parseConfig's loop: trim the line, skip it when empty or a comment, and
        apply its directive otherwise. */
    method ApplyLine(rawLine: string, current: Location, inBlock: bool)
      returns (current': Location, inBlock': bool)
      modifies this`port, this`serverName, this`host, this`root, this`index, this`clientMaxBodySize,
        this`errorPages, this`locations
      ensures ParseState(Values(), current', inBlock') == Step(ParseState(old(Values()), current, inBlock), rawLine)
    {
      current', inBlock' := current, inBlock;
      var line := Trim(rawLine);
      if line == [] || line[0] == '#' {
        return;
      }
      var directive, rest := "", "";
      match NextWord(line) {
        case Some(w) => directive, rest := w.0, w.1;
        case None =>
      }
      current', inBlock' := ApplyDirective(KeywordOf(directive), rest, current, inBlock);
    }

    /** The body of parseConfig's loop once the directive has been read. */
    method ApplyDirective(kw: Keyword, rest: string, current: Location, inBlock: bool)
      returns (current': Location, inBlock': bool)
      modifies this`port, this`serverName, this`host, this`root, this`index, this`clientMaxBodySize,
        this`errorPages, this`locations
      ensures ParseState(Values(), current', inBlock')
        == Directive(ParseState(old(Values()), current, inBlock), kw, rest)
    {
      current', inBlock' := current, inBlock;
      if kw == LocationBlock {
        if inBlock {
          locations := locations + [current];
        }
        current' := EmptyLocation.(path := RemoveSemicolon(WordOr(rest, "")));
        inBlock' := true;
      } else if kw == CloseBlock {
        if inBlock {
          locations := locations + [current];
          inBlock' := false;
        }
      } else {
        ApplySetting(kw, rest, inBlock);
        current' := ApplyToLocation(current, kw, rest, inBlock);
      }
    }

    /** The branches of parseConfig's chain that set a server-wide field. */
    method ApplySetting(kw: Keyword, rest: string, inBlock: bool)
      modifies this`port, this`serverName, this`host, this`root, this`index, this`clientMaxBodySize,
        this`errorPages
      ensures Values() == SettingsEffect(old(Values()), kw, rest, inBlock)
    {
      match kw {
        case Listen =>
          port := NumberOr(rest, 0, UINT16_MAX, port);
        case ServerName =>
          serverName := RemoveSemicolon(WordOr(rest, serverName));
        case Host =>
          host := RemoveSemicolon(WordOr(rest, host));
        case Root =>
          if !inBlock {
            root := RemoveSemicolon(WordOr(rest, ""));
          }
        case Index =>
          if !inBlock {
            index := RemoveSemicolon(WordOr(rest, ""));
          }
        case ClientMaxBodySize =>
          clientMaxBodySize := NumberOr(rest, 0, SIZE_MAX, clientMaxBodySize);
        case ErrorPage =>
          var code, page := ReadErrorPage(rest);
          errorPages := errorPages[code := RemoveSemicolon(page)];
        case _ =>
      }
    }

    /** `iss >> code >> page` for an error_page line; the code stays 0 when none is read. */
    static method ReadErrorPage(rest: string) returns (code: int, page: string)
      ensures (code, page) == ErrorPageEntry(rest)
    {
      code, page := 0, "";
      var e := Extract(rest, INT_MIN, INT_MAX);
      if e.Some? {
        code := e.value.value;
        if e.value.ok {
          page := WordOr(e.value.rest, "");
        }
      }
    }

    /** The branches of parseConfig's chain that fill in the open block. */
    static method ApplyToLocation(current: Location, kw: Keyword, rest: string, inBlock: bool)
      returns (loc: Location)
      ensures loc == LocationEffect(current, kw, rest, inBlock)
    {
      loc := current;
      if !inBlock {
        return;
      }
      match kw {
        case Root =>
          loc := current.(root := RemoveSemicolon(WordOr(rest, "")));
        case Index =>
          loc := current.(index := RemoveSemicolon(WordOr(rest, "")));
        case AllowMethods =>
          loc := ReadAllowMethods(current, rest);
        case Autoindex =>
          loc := current.(autoindex := RemoveSemicolon(WordOr(rest, "")) == "on");
        case CgiPath =>
          loc := current.(cgiPath := current.cgiPath + [RemoveSemicolon(WordOr(rest, ""))]);
        case CgiExt =>
          loc := current.(cgiExt := current.cgiExt + [RemoveSemicolon(WordOr(rest, ""))]);
        case UploadDir =>
          loc := current.(uploadDir := RemoveSemicolon(WordOr(rest, current.uploadDir)));
        case _ =>
      }
    }

    /** The `while (iss >> method)` loop of allow_methods. */
    static method ReadAllowMethods(current: Location, rest: string) returns (loc: Location)
      ensures loc == current.(allowMethods := current.allowMethods + RemoveSemicolons(Words(rest)))
    {
      loc := current;
      var iss := rest;
      ghost var read: seq<string> := [];
      while true
        invariant Words(rest) == read + Words(iss)
        invariant loc == current.(allowMethods := current.allowMethods + RemoveSemicolons(read))
        decreases |iss|
      {
        match NextWord(iss) {
          case None =>
            WordsRead(rest, read, iss);
            return;
          case Some(w) =>
            WordRead(rest, read, iss, current.allowMethods);
            loc := loc.(allowMethods := loc.allowMethods + [RemoveSemicolon(w.0)]);
            read := read + [w.0];
            iss := w.1;
        }
      }
    }

    /** findLocation: the index of the chosen location, None for a null result. */
    method FindLocation(path: string) returns (bestMatch: Option<nat>)
      ensures bestMatch == BestLocation(locations, path)
    {
      bestMatch := None;
      var bestMatchLength := 0;
      for i := 0 to |locations|
        invariant bestMatch == BestLocation(locations[..i], path)
        invariant bestMatchLength == if bestMatch.Some? then |locations[bestMatch.value].path| else 0
      {
        var locPath := locations[i].path;
        assert locations[..i + 1][..i] == locations[..i];
        FindAtZero(path, locPath);
        if IndexOf(path, locPath, 0) == Some(0) && |locPath| > bestMatchLength {
          bestMatch := Some(i);
          bestMatchLength := |locPath|;
        }
      }
      assert locations[..|locations|] == locations;
    }

    /** isMethodAllowed: the linear scan of the allow-list. */
    method IsMethodAllowed(verb: string, loc: Option<Location>) returns (allowed: bool)
      ensures allowed == MethodAllowed(verb, loc)
    {
      if loc.None? || |loc.value.allowMethods| == 0 {
        return true;
      }
      var methods := loc.value.allowMethods;
      for i := 0 to |methods|
        invariant verb !in methods[..i]
      {
        if methods[i] == verb {
          return true;
        }
        TakeSnoc(methods, i);
      }
      assert methods[..|methods|] == methods;
      return false;
    }
  }
}
