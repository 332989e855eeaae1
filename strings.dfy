/**
 * The std::string operations the server's request logic is built from, as functions on
 * `seq<char>`: find and find_last_of, whitespace tokenising (`>>` on a stream), line
 * splitting (std::getline), the byte order std::map uses for its string keys, and
 * decimal conversion.
 */
module Strings {
  import opened Wrappers

  const CRLF: string := "\r\n"
  const CRLFCRLF: string := "\r\n\r\n"
  const LFLF: string := "\n\n"

  predicate StartsWith(s: string, prefix: string) {
    |prefix| <= |s| && s[..|prefix|] == prefix
  }

  predicate EndsWith(s: string, suffix: string) {
    |suffix| <= |s| && s[|s| - |suffix|..] == suffix
  }

  /** `pat` occurs in `s` starting at index `i`. */
  predicate OccursAt(s: string, pat: string, i: nat) {
    i + |pat| <= |s| && s[i..i + |pat|] == pat
  }

  /** std::string::find(pat, from): the first occurrence of `pat` at or after `from`. */
  function IndexOf(s: string, pat: string, from: nat): (r: Option<nat>)
    ensures r.Some? ==> from <= r.value && OccursAt(s, pat, r.value)
    ensures r.Some? ==> forall j :: from <= j < r.value ==> !OccursAt(s, pat, j)
    ensures r.None? ==> forall j :: from <= j ==> !OccursAt(s, pat, j)
    decreases |s| - from
  {
    if from + |pat| > |s| then None
    else if s[from..from + |pat|] == pat then Some(from)
    else IndexOf(s, pat, from + 1)
  }

  /** An occurrence at `x` with none between `from` and `x` is the one find reports. */
  lemma IndexOfIs(s: string, pat: string, from: nat, x: nat)
    requires from <= x && OccursAt(s, pat, x)
    requires forall j :: from <= j < x ==> !OccursAt(s, pat, j)
    ensures IndexOf(s, pat, from) == Some(x)
  {
  }

  /** `pat` occurs somewhere in `s` (find(pat) != npos). */
  predicate Contains(s: string, pat: string) {
    IndexOf(s, pat, 0).Some?
  }

  /** A found occurrence stays the first one when more text is appended. */
  lemma {:induction false} IndexOfAppend(s: string, t: string, pat: string, from: nat)
    requires IndexOf(s, pat, from).Some?
    ensures IndexOf(s + t, pat, from) == IndexOf(s, pat, from)
  {
    var i := IndexOf(s, pat, from).value;
    assert (s + t)[i..i + |pat|] == s[i..i + |pat|];
    forall j | from <= j < i
      ensures !OccursAt(s + t, pat, j)
    {
      assert !OccursAt(s, pat, j);
      assert j + |pat| <= |s|;
      assert (s + t)[j..j + |pat|] == s[j..j + |pat|];
    }
    IndexOfIs(s + t, pat, from, i);
  }

  /** An occurrence found in a prefix of `s` is the first one in `s` too. */
  lemma {:induction false} IndexOfPrefix(s: string, n: nat, pat: string, from: nat)
    requires n <= |s| && IndexOf(s[..n], pat, from).Some?
    ensures IndexOf(s, pat, from) == IndexOf(s[..n], pat, from)
  {
    assert s == s[..n] + s[n..];
    IndexOfAppend(s[..n], s[n..], pat, from);
  }

  /** std::string::find_last_of(c) for a single character. */
  function LastIndexOf(s: string, c: char): (r: Option<nat>)
    ensures r.Some? ==> r.value < |s| && s[r.value] == c
    ensures r.Some? ==> forall j :: r.value < j < |s| ==> s[j] != c
    ensures r.None? ==> forall j :: 0 <= j < |s| ==> s[j] != c
  {
    if |s| == 0 then None
    else if s[|s| - 1] == c then Some(|s| - 1)
    else LastIndexOf(s[..|s| - 1], c)
  }

  /** A `c` at `x` with none after it is the one find_last_of reports. */
  lemma {:induction false} LastIndexOfIs(s: string, c: char, x: nat)
    requires x < |s| && s[x] == c
    requires forall j :: x < j < |s| ==> s[j] != c
    ensures LastIndexOf(s, c) == Some(x)
    decreases |s|
  {
    if x < |s| - 1 {
      LastIndexOfIs(s[..|s| - 1], c, x);
    }
  }

  /**
   * The suffix from the last '.', inclusive (`substr(find_last_of('.'))`): a file name's
   * extension, None when there is no '.'.
   */
  function Extension(path: string): (r: Option<string>)
    ensures r.None? <==> '.' !in path
    ensures r.Some? ==> |r.value| > 0 && r.value[0] == '.' && '.' !in r.value[1..]
  {
    match LastIndexOf(path, '.')
    case None =>
      NoDot(path);
      None
    case Some(pos) =>
      LastDot(path, pos);
      Some(path[pos..])
  }

  lemma NoDot(path: string)
    requires forall j :: 0 <= j < |path| ==> path[j] != '.'
    ensures '.' !in path
  {
  }

  lemma LastDot(path: string, pos: nat)
    requires pos < |path| && path[pos] == '.'
    requires forall j :: pos < j < |path| ==> path[j] != '.'
    ensures '.' in path
    ensures var e := path[pos..]; |e| > 0 && e[0] == '.' && '.' !in e[1..]
  {
    var e := path[pos..];
    assert e[0] == path[pos];
    forall j | 0 <= j < |e| - 1
      ensures e[1..][j] != '.'
    {
      assert e[1..][j] == path[pos + 1 + j];
    }
  }

  /** A name ending in a dot-led suffix with no other dot has that suffix as its extension. */
  lemma ExtensionAppend(base: string, ext: string)
    requires |ext| > 0 && ext[0] == '.' && '.' !in ext[1..]
    ensures Extension(base + ext) == Some(ext)
  {
    var s := base + ext;
    forall j | |base| < j < |s|
      ensures s[j] != '.'
    {
      assert s[j] == ext[1..][j - |base| - 1];
    }
    LastIndexOfIs(s, '.', |base|);
    assert s[|base|..] == ext;
  }

  /** find(c) for a single character: found exactly when `c` occurs. */
  lemma {:induction false} FindChar(s: string, c: char)
    ensures IndexOf(s, [c], 0).Some? <==> c in s
  {
    match IndexOf(s, [c], 0)
    case Some(i) =>
      assert s[i..i + 1] == [c];
      assert s[i] == c;
    case None =>
      forall j | 0 <= j < |s|
        ensures s[j] != c
      {
        assert !OccursAt(s, [c], j);
        assert s[j..j + 1] == [s[j]];
      }
  }

  /** The end of the first blank line at or after `from`: just past the first "\r\n\r\n",
      or, when there is none, just past the first "\n\n". */
  function BlankLineEnd(s: string, from: nat): (r: Option<nat>)
    ensures r.Some? ==> from + 2 <= r.value <= |s|
    ensures r.None? <==> IndexOf(s, CRLFCRLF, from).None? && IndexOf(s, LFLF, from).None?
  {
    match IndexOf(s, CRLFCRLF, from)
    case Some(i) => Some(i + 4)
    case None =>
      match IndexOf(s, LFLF, from)
      case Some(i) => Some(i + 2)
      case None => None
  }

  /** A blank line found in a prefix is found at the same place after appending, as long as
      it is a "\r\n\r\n" one. */
  lemma BlankLineEndAppend(s: string, t: string, from: nat)
    requires IndexOf(s, CRLFCRLF, from).Some?
    ensures BlankLineEnd(s + t, from) == BlankLineEnd(s, from)
  {
    IndexOfAppend(s, t, CRLFCRLF, from);
  }


  /** No carriage return and no line feed in `s`. */
  predicate NoLineBreak(s: string) {
    '\r' !in s && '\n' !in s
  }

  /** Extending a prefix of `s` by one element. */
  lemma TakeSnoc<T>(s: seq<T>, i: nat)
    requires i < |s|
    ensures s[..i + 1] == s[..i] + [s[i]]
  {
  }

  lemma TakeAll<T>(s: seq<T>)
    ensures s[..|s|] == s
  {
  }

  /** The lines of `ls`, each followed by "\r\n": how a header section is written. */
  function CrlfLines(ls: seq<string>): string {
    if |ls| == 0 then "" else CrlfLines(ls[..|ls| - 1]) + ls[|ls| - 1] + CRLF
  }

  lemma CrlfLinesSnoc(ls: seq<string>, l: string)
    ensures CrlfLines(ls + [l]) == CrlfLines(ls) + l + CRLF
  {
    assert (ls + [l])[..|ls|] == ls;
  }

  /** A line feed is never followed by a carriage return: no blank line starts inside. */
  predicate NoLfCr(s: string) {
    forall i :: 0 <= i && i + 1 < |s| && s[i] == '\n' ==> s[i + 1] != '\r'
  }

  /** Appending a non-empty line without line breaks, ended by "\r\n", keeps NoLfCr. */
  lemma LineAppended(h: string, l: string)
    requires NoLfCr(h) && |l| > 0 && NoLineBreak(l)
    ensures NoLfCr(h + l + CRLF)
  {
    var w := h + l + CRLF;
    forall i | 0 <= i && i + 1 < |w|
      ensures w[i] == '\n' ==> w[i + 1] != '\r'
    {
      if i + 1 < |h| {
        assert w[i] == h[i] && w[i + 1] == h[i + 1];
      } else if i + 1 == |h| {
        assert w[i + 1] == l[0];
      } else if i < |h| + |l| {
        assert w[i] == l[i - |h|];
      } else {
        assert w[i] == '\r';
      }
    }
  }

  /** In a section of non-empty lines without line breaks, each ended by "\r\n", no blank
      line occurs inside, and the character before the final "\r\n" is not '\r'. */
  lemma {:induction false} CrlfLinesNoBlankLine(ls: seq<string>)
    requires forall l :: l in ls ==> |l| > 0 && NoLineBreak(l)
    ensures |ls| > 0 ==> EndsWith(CrlfLines(ls), CRLF) && |CrlfLines(ls)| >= 3
    ensures |ls| > 0 ==> CrlfLines(ls)[|CrlfLines(ls)| - 3] != '\r'
    ensures NoLfCr(CrlfLines(ls))
    decreases |ls|
  {
    if |ls| > 0 {
      var init := ls[..|ls| - 1];
      var l := ls[|ls| - 1];
      assert forall x :: x in init ==> x in ls;
      CrlfLinesNoBlankLine(init);
      var h := CrlfLines(init);
      assert CrlfLines(ls) == h + l + CRLF;
      LineAppended(h, l);
      LineEnded(h, l);
    }
  }

  /** The last line's final character comes just before the closing "\r\n". */
  lemma LineEnded(h: string, l: string)
    requires |l| > 0 && NoLineBreak(l)
    ensures EndsWith(h + l + CRLF, CRLF) && |h + l + CRLF| >= 3
    ensures (h + l + CRLF)[|h + l + CRLF| - 3] != '\r'
  {
    var w := h + l + CRLF;
    assert w[|w| - 3] == l[|l| - 1];
    assert w[|w| - 2..] == CRLF;
  }

  /** A client that looks for the first blank line in a header section of clean lines
      followed by "\r\n" and a body finds it exactly where the body starts. */
  lemma FirstBlankLine(ls: seq<string>, body: string)
    requires |ls| > 0 && forall l :: l in ls ==> |l| > 0 && NoLineBreak(l)
    ensures BlankLineEnd(CrlfLines(ls) + CRLF + body, 0) == Some(|CrlfLines(ls)| + 2)
  {
    var h := CrlfLines(ls);
    CrlfLinesNoBlankLine(ls);
    FirstBlankAt(h, body);
  }

  /** After a NoLfCr text ending in "\r\n", the blank line is the added "\r\n". */
  lemma FirstBlankAt(h: string, body: string)
    requires EndsWith(h, CRLF) && NoLfCr(h)
    ensures BlankLineEnd(h + CRLF + body, 0) == Some(|h| + 2)
  {
    var w := h + CRLF + body;
    BlankAtEnd(h, body);
    forall j | 0 <= j < |h| - 2
      ensures !OccursAt(w, CRLFCRLF, j)
    {
      NoBlankInside(h, body, j);
    }
    IndexOfIs(w, CRLFCRLF, 0, |h| - 2);
  }

  /** A text ending in "\r\n" followed by "\r\n" has a blank line two characters before
      the join. */
  lemma BlankAtEnd(h: string, body: string)
    requires EndsWith(h, CRLF)
    ensures OccursAt(h + CRLF + body, CRLFCRLF, |h| - 2)
  {
    var w := h + CRLF + body;
    var k := |h| - 2;
    assert w[k] == h[k] == '\r' && w[k + 1] == h[k + 1] == '\n';
    assert w[k + 2] == '\r' && w[k + 3] == '\n';
    assert w[k..k + 4] == CRLFCRLF;
  }

  /** Inside a NoLfCr prefix, before its last two characters, no "\r\n\r\n" starts. */
  lemma NoBlankInside(h: string, body: string, j: nat)
    requires NoLfCr(h) && j + 2 < |h|
    ensures !OccursAt(h + CRLF + body, CRLFCRLF, j)
  {
    var w := h + CRLF + body;
    assert w[j + 1] == h[j + 1] && w[j + 2] == h[j + 2];
    NotBlankAt(w, j);
  }

  /** No "\r\n\r\n" starts at `j` when the two characters after `j` are not "\n\r". */
  lemma NotBlankAt(w: string, j: nat)
    requires j + 2 < |w| && (w[j + 1] != '\n' || w[j + 2] != '\r')
    ensures !OccursAt(w, CRLFCRLF, j)
  {
    if j + 4 <= |w| {
      assert w[j..j + 4][1] == w[j + 1] && w[j..j + 4][2] == w[j + 2];
      assert CRLFCRLF[1] == '\n' && CRLFCRLF[2] == '\r';
    }
  }

  /** isspace() in the "C" locale: the separators of formatted stream input. */
  predicate IsSpace(c: char) {
    c == ' ' || c == '\t' || c == '\n' || c == '\U{B}' || c == '\U{C}' || c == '\r'
  }

  /** Length of the run of non-space characters at the start of `s`. */
  function WordLength(s: string): (n: nat)
    ensures n <= |s|
    ensures forall i :: 0 <= i < n ==> !IsSpace(s[i])
    ensures n < |s| ==> IsSpace(s[n])
  {
    if |s| == 0 || IsSpace(s[0]) then 0 else 1 + WordLength(s[1..])
  }

  /** The whitespace-separated tokens of `s`, as repeated `stream >> word` extracts them. */
  function Words(s: string): (r: seq<string>)
    ensures forall w :: w in r ==> |w| > 0 && forall i :: 0 <= i < |w| ==> !IsSpace(w[i])
    decreases |s|
  {
    if |s| == 0 then []
    else if IsSpace(s[0]) then Words(s[1..])
    else
      var n := WordLength(s);
      [s[..n]] + Words(s[n..])
  }

  /** `s` without its leading white space, as formatted stream input skips it. */
  function SkipSpaces(s: string): (r: string)
    ensures |r| <= |s|
    ensures forall i :: 0 <= i < |s| - |r| ==> IsSpace(s[i])
    ensures |r| == 0 || !IsSpace(r[0])
  {
    if |s| > 0 && IsSpace(s[0]) then SkipSpaces(s[1..]) else s
  }

  /** White space in front of a text that does not start with any is all skipped. */
  lemma {:induction false} SkipSpacesOf(ws: string, t: string)
    requires forall i :: 0 <= i < |ws| ==> IsSpace(ws[i])
    requires |t| == 0 || !IsSpace(t[0])
    ensures SkipSpaces(ws + t) == t
    decreases |ws|
  {
    if |ws| > 0 {
      assert (ws + t)[1..] == ws[1..] + t;
      SkipSpacesOf(ws[1..], t);
    } else {
      assert ws + t == t;
    }
  }

  /**
   * One `stream >> word` on the text `s`: the word and the text after it, or None when only
   * white space is left (the extraction then fails and leaves its target unchanged).
   */
  function NextWord(s: string): (r: Option<(string, string)>)
    ensures r.Some? ==> |r.value.0| > 0 && forall i :: 0 <= i < |r.value.0| ==> !IsSpace(r.value.0[i])
    ensures r.Some? ==> |r.value.1| < |s|
  {
    var t := SkipSpaces(s);
    if |t| == 0 then None
    else
      var n := WordLength(t);
      Some((t[..n], t[n..]))
  }

  /** Repeated single extractions read exactly the tokens of the text. */
  lemma {:induction false} NextWordWords(s: string)
    ensures NextWord(s).None? <==> Words(s) == []
    ensures NextWord(s).Some? ==> Words(s) == [NextWord(s).value.0] + Words(NextWord(s).value.1)
    decreases |s|
  {
    if |s| > 0 && IsSpace(s[0]) {
      NextWordWords(s[1..]);
    }
  }

  /** Length of `s` up to, not including, its first '\n'. */
  function LineLength(s: string): (n: nat)
    ensures n <= |s|
    ensures n < |s| ==> s[n] == '\n'
  {
    if |s| == 0 || s[0] == '\n' then 0 else 1 + LineLength(s[1..])
  }

  /** No '\n' comes before the end of the first line. */
  lemma {:induction false} LineLengthFirst(s: string)
    ensures forall i :: 0 <= i < LineLength(s) ==> s[i] != '\n'
    decreases |s|
  {
    if |s| > 0 && s[0] != '\n' {
      LineLengthFirst(s[1..]);
    }
  }

  /** The lines that repeated std::getline calls return: split at '\n', the separator
      dropped; a final '\n' does not start another line. */
  function Lines(s: string): (r: seq<string>)
    ensures |s| > 0 <==> |r| > 0
    decreases |s|
  {
    if |s| == 0 then []
    else
      var n := LineLength(s);
      if n == |s| then [s] else [s[..n]] + Lines(s[n + 1..])
  }

  /** The lines are exactly the pieces between the separators. */
  lemma LinesJoin(s: string)
    ensures |s| > 0 && s[|s| - 1] != '\n' ==> Join(Lines(s), "\n") == s
    ensures |s| > 0 && s[|s| - 1] == '\n' ==> Join(Lines(s), "\n") + "\n" == s
  {
    if |s| > 0 {
      if s[|s| - 1] == '\n' {
        LinesJoinClosed(s);
      } else {
        LinesJoinOpen(s);
      }
    }
  }

  lemma {:induction false} LinesJoinOpen(s: string)
    requires |s| > 0 && s[|s| - 1] != '\n'
    ensures Join(Lines(s), "\n") == s
    decreases |s|
  {
    var n := LineLength(s);
    if n < |s| {
      var rest := s[n + 1..];
      assert rest[|rest| - 1] == s[|s| - 1];
      LinesJoinOpen(rest);
      LinesCons(s);
      LineSplit(s);
    }
  }

  /** Text holding a '\n' is its first line, the separator and the remainder. */
  lemma LineSplit(s: string)
    requires LineLength(s) < |s|
    ensures s == s[..LineLength(s)] + "\n" + s[LineLength(s) + 1..]
  {
    SplitAt(s, LineLength(s));
  }

  /** A sequence is its prefix, one element and its suffix. */
  lemma SplitAt<T>(s: seq<T>, n: nat)
    requires n < |s|
    ensures s == s[..n] + [s[n]] + s[n + 1..]
  {
    assert s[n..] == [s[n]] + s[n + 1..];
    assert s == s[..n] + s[n..];
  }

  lemma {:induction false} LinesJoinClosed(s: string)
    requires |s| > 0 && s[|s| - 1] == '\n'
    ensures Join(Lines(s), "\n") + "\n" == s
    decreases |s|
  {
    var n := LineLength(s);
    LineLengthFirst(s);
    assert n < |s|;
    var rest := s[n + 1..];
    LineSplit(s);
    if |rest| == 0 {
      assert Lines(s) == [s[..n]];
    } else {
      LinesJoinClosed(rest);
      LinesCons(s);
      AppendAssoc(s[..n] + "\n", Join(Lines(rest), "\n"), "\n");
    }
  }

  lemma AppendAssoc<T>(a: seq<T>, b: seq<T>, c: seq<T>)
    ensures a + (b + c) == (a + b) + c
  {
  }

  /** A line followed by more text: the first line, a separator and the rest joined. */
  lemma LinesCons(s: string)
    requires LineLength(s) + 1 < |s|
    ensures Join(Lines(s), "\n") == s[..LineLength(s)] + "\n" + Join(Lines(s[LineLength(s) + 1..]), "\n")
  {
    var n := LineLength(s);
    LinesUnfold(s);
    JoinCons(s[..n], Lines(s[n + 1..]), "\n");
  }

  /** A line ended by a separator is split off the front, and the lines after it follow. */
  lemma LinesUnfold(s: string)
    ensures LineLength(s) < |s| ==> Lines(s) == [s[..LineLength(s)]] + Lines(s[LineLength(s) + 1..])
  {
    if |s| != 0 {
      var n := LineLength(s);
      if n < |s| {
        assert Lines(s) == [s[..n]] + Lines(s[n + 1..]);
      }
    }
  }

  lemma JoinCons(x: string, ls: seq<string>, sep: string)
    requires |ls| > 0
    ensures Join([x] + ls, sep) == x + sep + Join(ls, sep)
  {
    assert ([x] + ls)[1..] == ls;
  }

  /** The strings of `ls` with `sep` between each two neighbours. */
  function Join(ls: seq<string>, sep: string): string {
    if |ls| == 0 then ""
    else if |ls| == 1 then ls[0]
    else ls[0] + sep + Join(ls[1..], sep)
  }

  /** Joining one more string at the end adds one separator. */
  lemma {:induction false} JoinSnoc(ls: seq<string>, l: string, sep: string)
    requires |ls| > 0
    ensures Join(ls + [l], sep) == Join(ls, sep) + sep + l
    decreases |ls|
  {
    if |ls| == 1 {
      assert ls + [l] == [ls[0], l];
      assert (ls + [l])[1..] == [l];
    } else {
      assert (ls + [l])[1..] == ls[1..] + [l];
      JoinSnoc(ls[1..], l, sep);
    }
  }

  /**
   * The byte order of std::string comparison (char_traits<char>::lt compares as unsigned
   * char): the first differing character decides, and a proper prefix comes first.
   */
  predicate Less(a: string, b: string)
    decreases |a|
  {
    if |a| == 0 then |b| > 0
    else if |b| == 0 then false
    else a[0] < b[0] || (a[0] == b[0] && Less(a[1..], b[1..]))
  }

  lemma {:induction false} LessIrreflexive(a: string)
    ensures !Less(a, a)
    decreases |a|
  {
    if |a| > 0 {
      LessIrreflexive(a[1..]);
    }
  }

  lemma {:induction false} LessAsymmetric(a: string, b: string)
    requires Less(a, b)
    ensures !Less(b, a)
    decreases |a|
  {
    if |a| > 0 && |b| > 0 && a[0] == b[0] {
      LessAsymmetric(a[1..], b[1..]);
    }
  }

  lemma {:induction false} LessTransitive(a: string, b: string, c: string)
    requires Less(a, b) && Less(b, c)
    ensures Less(a, c)
    decreases |a|
  {
    if |a| > 0 && a[0] == b[0] && b[0] == c[0] {
      LessTransitive(a[1..], b[1..], c[1..]);
    }
  }

  lemma {:induction false} LessTotal(a: string, b: string)
    requires a != b
    ensures Less(a, b) || Less(b, a)
    decreases |a|
  {
    if |a| > 0 && |b| > 0 && a[0] == b[0] {
      LessTotal(a[1..], b[1..]);
    }
  }

  /** `m` comes before every other element of `s`. */
  predicate IsLeast(m: string, s: set<string>) {
    m in s && forall x :: x in s && x != m ==> Less(m, x)
  }

  lemma {:induction false} LeastExists(s: set<string>)
    requires s != {}
    ensures exists m :: IsLeast(m, s)
    decreases s
  {
    var y :| y in s;
    if s == {y} {
      assert IsLeast(y, s);
    } else {
      LeastExists(s - {y});
      var m :| IsLeast(m, s - {y});
      if Less(m, y) {
        assert IsLeast(m, s);
      } else {
        LessTotal(m, y);
        forall x | x in s && x != y
          ensures Less(y, x)
        {
          if x != m {
            LessTransitive(y, m, x);
          }
        }
        assert IsLeast(y, s);
      }
    }
  }

  lemma LeastUnique(s: set<string>)
    ensures forall m1, m2 :: IsLeast(m1, s) && IsLeast(m2, s) ==> m1 == m2
  {
    forall m1, m2 | IsLeast(m1, s) && IsLeast(m2, s)
      ensures m1 == m2
    {
      if m1 != m2 {
        LessAsymmetric(m1, m2);
      }
    }
  }

  /** The smallest element of a non-empty set of strings. */
  function Least(s: set<string>): (m: string)
    requires s != {}
    ensures IsLeast(m, s)
  {
    LeastExists(s);
    LeastUnique(s);
    var m :| IsLeast(m, s);
    m
  }

  /** The order in which a std::map with string keys visits its keys: ascending. */
  function SortedKeys(s: set<string>): (r: seq<string>)
    ensures |r| == |s|
    ensures forall k :: k in r <==> k in s
    ensures forall i, j :: 0 <= i < j < |r| ==> Less(r[i], r[j])
    decreases s
  {
    if s == {} then []
    else
      var m := Least(s);
      var rest := SortedKeys(s - {m});
      LeastFirst(m, s, rest);
      [m] + rest
  }

  /** Putting the least element in front of the sorted others sorts the whole set. */
  lemma LeastFirst(m: string, s: set<string>, rest: seq<string>)
    requires IsLeast(m, s)
    requires |rest| == |s - {m}| && forall k :: k in rest <==> k in s - {m}
    requires forall i, j :: 0 <= i < j < |rest| ==> Less(rest[i], rest[j])
    ensures |[m] + rest| == |s|
    ensures forall k :: k in [m] + rest <==> k in s
    ensures forall i, j :: 0 <= i < j < |[m] + rest| ==> Less(([m] + rest)[i], ([m] + rest)[j])
  {
    var r := [m] + rest;
    forall i, j | 0 <= i < j < |r|
      ensures Less(r[i], r[j])
    {
      if i == 0 {
        assert r[j] == rest[j - 1] && r[j] in s - {m};
      } else {
        assert r[i] == rest[i - 1] && r[j] == rest[j - 1];
      }
    }
  }

  /** Strictly ascending keys are pairwise distinct. */
  lemma SortedDistinct(r: seq<string>)
    requires forall i, j :: 0 <= i < j < |r| ==> Less(r[i], r[j])
    ensures forall i, j :: 0 <= i < |r| && 0 <= j < |r| && i != j ==> r[i] != r[j]
  {
    forall i, j | 0 <= i < |r| && 0 <= j < |r| && i != j
      ensures r[i] != r[j]
    {
      if i < j {
        LessIrreflexive(r[i]);
      } else {
        LessIrreflexive(r[j]);
      }
    }
  }

  predicate IsDigit(c: char) {
    '0' <= c <= '9'
  }

  predicate AllDigits(s: string) {
    forall i :: 0 <= i < |s| ==> IsDigit(s[i])
  }

  function DigitChar(d: nat): (c: char)
    requires d < 10
    ensures IsDigit(c)
  {
    (48 + d) as char
  }

  function DigitValue(c: char): (d: nat)
    requires IsDigit(c)
    ensures d < 10
  {
    c as int - 48
  }

  /** Decimal text of a natural number, as `os << n` writes it. */
  function NatToString(n: nat): (r: string)
    ensures |r| > 0 && AllDigits(r)
    decreases n
  {
    if n < 10 then [DigitChar(n)] else NatToString(n / 10) + [DigitChar(n % 10)]
  }

  /** Decimal text of an integer, with a leading '-' when negative. */
  function IntToString(i: int): string {
    if i < 0 then "-" + NatToString(-i) else NatToString(i)
  }

  /** The value of a string of decimal digits. */
  function DigitsValue(s: string): nat
    requires AllDigits(s)
  {
    if |s| == 0 then 0 else 10 * DigitsValue(s[..|s| - 1]) + DigitValue(s[|s| - 1])
  }

  /** Reading back the decimal text of `n` gives `n`. */
  lemma {:induction false} DigitsRoundTrip(n: nat)
    ensures DigitsValue(NatToString(n)) == n
    decreases n
  {
    var s := NatToString(n);
    if n >= 10 {
      DigitsRoundTrip(n / 10);
      assert s[..|s| - 1] == NatToString(n / 10);
    }
  }

  /** The digits of `d` are all read when a non-digit, or nothing, follows them. */
  lemma {:induction false} LeadingDigitsOf(d: string, rest: string)
    requires AllDigits(d)
    requires |rest| == 0 || !IsDigit(rest[0])
    ensures LeadingDigits(d + rest) == |d|
    decreases |d|
  {
    if |d| > 0 {
      assert (d + rest)[1..] == d[1..] + rest;
      LeadingDigitsOf(d[1..], rest);
    } else {
      assert d + rest == rest;
    }
  }

  /** Number of decimal digits at the start of `s`. */
  function LeadingDigits(s: string): (n: nat)
    ensures n <= |s| && AllDigits(s[..n])
    ensures n < |s| ==> !IsDigit(s[n])
  {
    if |s| == 0 || !IsDigit(s[0]) then 0
    else
      var n := 1 + LeadingDigits(s[1..]);
      assert forall i :: 1 <= i < n ==> s[..n][i] == s[1..][..n - 1][i - 1];
      n
  }

  /** toupper() in the "C" locale. */
  function Upper(c: char): char {
    if 'a' <= c <= 'z' then (c as int - 32) as char else c
  }

  /** `s` without its leading spaces (the erase(0, 1) loop). */
  function TrimLeadingSpaces(s: string): (r: string)
    ensures |r| <= |s|
    ensures forall i :: 0 <= i < |s| - |r| ==> s[i] == ' '
    ensures |r| == 0 || r[0] != ' '
  {
    if |s| > 0 && s[0] == ' ' then TrimLeadingSpaces(s[1..]) else s
  }

  /** `s` without its trailing spaces (the erase(length() - 1) loop). */
  function TrimTrailingSpaces(s: string): (r: string)
    ensures |r| <= |s|
    ensures forall i :: |r| <= i < |s| ==> s[i] == ' '
    ensures |r| == 0 || r[|r| - 1] != ' '
  {
    if |s| > 0 && s[|s| - 1] == ' ' then TrimTrailingSpaces(s[..|s| - 1]) else s
  }

  /** What is left after the leading spaces is the end of `s`: only spaces are removed. */
  lemma {:induction false} TrimLeadingSpacesSuffix(s: string)
    ensures TrimLeadingSpaces(s) == s[|s| - |TrimLeadingSpaces(s)|..]
    decreases |s|
  {
    if |s| > 0 && s[0] == ' ' {
      TrimLeadingSpacesSuffix(s[1..]);
    }
  }

  /** What is left before the trailing spaces is the start of `s`. */
  lemma {:induction false} TrimTrailingSpacesPrefix(s: string)
    ensures TrimTrailingSpaces(s) == s[..|TrimTrailingSpaces(s)|]
    decreases |s|
  {
    if |s| > 0 && s[|s| - 1] == ' ' {
      TrimTrailingSpacesPrefix(s[..|s| - 1]);
    }
  }

  /** Spaces in front of a text that does not start with one are all removed, and no more. */
  lemma {:induction false} TrimLeadingSpacesOf(pre: string, t: string)
    requires forall i :: 0 <= i < |pre| ==> pre[i] == ' '
    requires |t| == 0 || t[0] != ' '
    ensures TrimLeadingSpaces(pre + t) == t
    decreases |pre|
  {
    if |pre| > 0 {
      assert (pre + t)[1..] == pre[1..] + t;
      TrimLeadingSpacesOf(pre[1..], t);
    } else {
      assert pre + t == t;
    }
  }

  /** Spaces after a text that does not end with one are all removed, and no more. */
  lemma {:induction false} TrimTrailingSpacesOf(t: string, post: string)
    requires forall i :: 0 <= i < |post| ==> post[i] == ' '
    requires |t| == 0 || t[|t| - 1] != ' '
    ensures TrimTrailingSpaces(t + post) == t
    decreases |post|
  {
    if |post| > 0 {
      assert (t + post)[..|t + post| - 1] == t + post[..|post| - 1];
      TrimTrailingSpacesOf(t, post[..|post| - 1]);
    } else {
      assert t + post == t;
    }
  }

  /**
   * The space trim is the unique middle part: whenever `s` is spaces, then a text that
   * neither starts nor ends with a space, then spaces, the trim returns that text.
   */
  lemma SpaceTrimmedSplit(pre: string, mid: string, post: string)
    requires forall i :: 0 <= i < |pre| ==> pre[i] == ' '
    requires forall i :: 0 <= i < |post| ==> post[i] == ' '
    requires |mid| == 0 || (mid[0] != ' ' && mid[|mid| - 1] != ' ')
    ensures SpaceTrimmed(pre + mid + post) == mid
  {
    if |mid| == 0 {
      var blanks := pre + post;
      assert pre + mid + post == blanks + [];
      forall i | 0 <= i < |blanks|
        ensures blanks[i] == ' '
      {
        if i >= |pre| {
          assert blanks[i] == post[i - |pre|];
        }
      }
      TrimLeadingSpacesOf(blanks, []);
    } else {
      assert pre + mid + post == pre + (mid + post);
      TrimLeadingSpacesOf(pre, mid + post);
      TrimTrailingSpacesOf(mid, post);
    }
  }

  /** `s` with the spaces (only ' ') at both ends removed. */
  function SpaceTrimmed(s: string): string {
    TrimTrailingSpaces(TrimLeadingSpaces(s))
  }

  /** The two in-place erase loops that strip spaces from both ends of a string. */
  method TrimSpaces(s: string) returns (t: string)
    ensures t == SpaceTrimmed(s)
  {
    t := s;
    while |t| > 0 && t[0] == ' '
      invariant TrimLeadingSpaces(t) == TrimLeadingSpaces(s)
    {
      t := t[1..];
    }
    ghost var lead := t;
    while |t| > 0 && t[|t| - 1] == ' '
      invariant TrimTrailingSpaces(t) == TrimTrailingSpaces(lead)
    {
      t := t[..|t| - 1];
    }
  }
}
