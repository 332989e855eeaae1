/**
 * The connection table of srcs/connection_manager.cpp: a map from client socket to its
 * connection record, and the vector of poll entries handed to poll(), whose slot 0 is the
 * listening socket. Also the framing rule that decides when a client's buffer holds a whole
 * request. The clock is a parameter (`now`); closing sockets and logging are not modelled.
 */
module Connections {
  import opened Wrappers
  import opened Strings
  import opened Responses
  import HttpHandling

  /** The POLLIN bit of <poll.h>. */
  const POLLIN := 1

  /** Seconds of inactivity after which a client is evicted. */
  const CLIENT_TIMEOUT := 30

  /** struct pollfd. */
  datatype PollFd = PollFd(fd: int, events: int, revents: int)

  /** struct ClientConnection. */
  datatype ClientConnection = ClientConnection(
    fd: int,
    buffer: string,
    lastActivity: int,
    requestComplete: bool)

  /** A connection just accepted on socket `fd` at time `now`. */
  function NewConnection(fd: int, now: int): ClientConnection {
    ClientConnection(fd, "", now, false)
  }

  /** The eviction rule of handleTimeouts: idle strictly longer than CLIENT_TIMEOUT. */
  predicate Expired(c: ClientConnection, now: int) {
    now - c.lastActivity > CLIENT_TIMEOUT
  }

  // ---------------------------------------------------------------------------------------
  // Poll-entry sequences

  predicate DistinctFds(s: seq<PollFd>) {
    forall i, j :: 0 <= i < j < |s| ==> s[i].fd != s[j].fd
  }

  predicate HasFd(s: seq<PollFd>, fd: int) {
    exists p :: p in s && p.fd == fd
  }

  /** The index of the first entry for `fd`, as the iterator loop of removeClient finds it. */
  function FirstFdIndex(s: seq<PollFd>, fd: int): (r: Option<nat>)
    ensures r.Some? ==> r.value < |s| && s[r.value].fd == fd
    ensures r.Some? ==> forall j :: 0 <= j < r.value ==> s[j].fd != fd
    ensures r.None? ==> forall j :: 0 <= j < |s| ==> s[j].fd != fd
  {
    if |s| == 0 then None
    else if s[0].fd == fd then Some(0)
    else match FirstFdIndex(s[1..], fd)
      case None => None
      case Some(i) => Some(i + 1)
  }

  /** `s` without its first entry for `fd` (vector::erase at that iterator). */
  function EraseFirst(s: seq<PollFd>, fd: int): seq<PollFd> {
    match FirstFdIndex(s, fd)
    case None => s
    case Some(i) => s[..i] + s[i + 1..]
  }

  /** The entries of `s` whose fd is not in `gone`, in their original order. */
  function Keep(s: seq<PollFd>, gone: set<int>): seq<PollFd> {
    if |s| == 0 then []
    else (if s[0].fd in gone then [] else [s[0]]) + Keep(s[1..], gone)
  }

  /** One removeClient after another, for each fd of `fds` in turn. */
  function EraseEach(s: seq<PollFd>, fds: seq<int>): seq<PollFd> {
    if |fds| == 0 then s else EraseFirst(EraseEach(s, fds[..|fds| - 1]), fds[|fds| - 1])
  }

  lemma {:induction false} KeepMember(s: seq<PollFd>, gone: set<int>)
    ensures forall p :: p in Keep(s, gone) <==> p in s && p.fd !in gone
    decreases |s|
  {
    if |s| > 0 {
      KeepMember(s[1..], gone);
      assert forall p :: p in s <==> p == s[0] || p in s[1..];
    }
  }

  lemma {:induction false} KeepAppend(a: seq<PollFd>, b: seq<PollFd>, gone: set<int>)
    ensures Keep(a + b, gone) == Keep(a, gone) + Keep(b, gone)
    decreases |a|
  {
    if |a| == 0 {
      assert a + b == b;
    } else {
      assert (a + b)[1..] == a[1..] + b;
      KeepAppend(a[1..], b, gone);
    }
  }

  lemma {:induction false} KeepNone(s: seq<PollFd>, gone: set<int>)
    requires forall i :: 0 <= i < |s| ==> s[i].fd !in gone
    ensures Keep(s, gone) == s
    decreases |s|
  {
    if |s| > 0 {
      KeepNone(s[1..], gone);
    }
  }

  lemma {:induction false} KeepKeep(s: seq<PollFd>, a: set<int>, b: set<int>)
    ensures Keep(Keep(s, a), b) == Keep(s, a + b)
    decreases |s|
  {
    if |s| > 0 {
      var head := if s[0].fd in a then [] else [s[0]];
      KeepAppend(head, Keep(s[1..], a), b);
      KeepKeep(s[1..], a, b);
      if s[0].fd !in a {
        assert Keep(head, b) == (if s[0].fd in b then [] else [s[0]]) + Keep([], b);
      }
    }
  }

  lemma {:induction false} KeepDistinct(s: seq<PollFd>, gone: set<int>)
    requires DistinctFds(s)
    ensures DistinctFds(Keep(s, gone))
    decreases |s|
  {
    if |s| > 0 {
      var rest := Keep(s[1..], gone);
      KeepDistinct(s[1..], gone);
      KeepMember(s[1..], gone);
      if s[0].fd !in gone {
        var r := [s[0]] + rest;
        forall i, j | 0 <= i < j < |r|
          ensures r[i].fd != r[j].fd
        {
          if i == 0 {
            assert r[j] == rest[j - 1];
            assert rest[j - 1] in s[1..];
            var k :| 0 <= k < |s[1..]| && s[1..][k] == rest[j - 1];
            assert s[k + 1] == rest[j - 1];
          } else {
            assert r[i] == rest[i - 1] && r[j] == rest[j - 1];
          }
        }
      }
    }
  }

  /** With distinct fds, erasing the first entry for `fd` is erasing every entry for it. */
  lemma KeepSkip(front: seq<PollFd>, p: PollFd, back: seq<PollFd>, gone: set<int>)
    requires forall k :: 0 <= k < |front| ==> front[k].fd !in gone
    requires forall k :: 0 <= k < |back| ==> back[k].fd !in gone
    requires p.fd in gone
    ensures Keep(front + [p] + back, gone) == front + back
  {
    KeepNone(front, gone);
    KeepNone(back, gone);
    assert Keep([p], gone) == [];
    KeepAppend(front, [p], gone);
    assert front + [] == front;
    var kept := Keep(front + [p], gone);
    assert kept == front;
    KeepAppend(front + [p], back, gone);
    assert Keep(front + [p] + back, gone) == kept + Keep(back, gone);
  }

  lemma EraseFirstIsKeep(s: seq<PollFd>, fd: int)
    requires DistinctFds(s)
    ensures EraseFirst(s, fd) == Keep(s, {fd})
  {
    match FirstFdIndex(s, fd)
    case None =>
      KeepNone(s, {fd});
    case Some(i) =>
      var front, back := s[..i], s[i + 1..];
      forall k | 0 <= k < |back|
        ensures back[k].fd !in {fd}
      {
        assert back[k] == s[i + 1 + k];
      }
      assert s == front + [s[i]] + back;
      KeepSkip(front, s[i], back, {fd});
  }

  /** With distinct fds, removing clients one after another removes exactly their entries. */
  lemma {:induction false} EraseEachIsKeep(s: seq<PollFd>, fds: seq<int>)
    requires DistinctFds(s)
    ensures EraseEach(s, fds) == Keep(s, FdSet(fds))
    decreases |fds|
  {
    if |fds| == 0 {
      assert FdSet(fds) == {};
      KeepNone(s, {});
    } else {
      var init := fds[..|fds| - 1];
      var last := fds[|fds| - 1];
      EraseEachIsKeep(s, init);
      KeepDistinct(s, FdSet(init));
      EraseFirstIsKeep(Keep(s, FdSet(init)), last);
      KeepKeep(s, FdSet(init), {last});
      assert fds == init + [last];
      FdSetSnoc(init, last);
    }
  }

  /** The fds listed in `fds`. */
  function FdSet(fds: seq<int>): set<int> {
    set x | x in fds
  }

  lemma FdSetSnoc(fds: seq<int>, x: int)
    ensures FdSet(fds + [x]) == FdSet(fds) + {x}
  {
    assert forall y :: y in fds + [x] <==> y in fds || y == x;
  }

  // ---------------------------------------------------------------------------------------
  // The table's invariant

  /**
   * Slot 0 is the listening socket and is not a client; every other slot belongs to exactly
   * one client and every client has exactly one slot; each client records its own fd; every
   * entry polls for input.
   */
  ghost predicate Consistent(clients: map<int, ClientConnection>, pollFds: seq<PollFd>) {
    |pollFds| > 0
    && DistinctFds(pollFds)
    && pollFds[0].fd !in clients
    && (forall fd :: fd in clients <==> HasFd(pollFds[1..], fd))
    && (forall fd :: fd in clients ==> clients[fd].fd == fd)
    && (forall i :: 0 <= i < |pollFds| ==> pollFds[i].events == POLLIN)
  }

  /** Evicting a set of clients that excludes the listening socket keeps the table consistent. */
  lemma EvictConsistent(clients: map<int, ClientConnection>, pollFds: seq<PollFd>, gone: set<int>)
    requires Consistent(clients, pollFds) && pollFds[0].fd !in gone
    ensures Keep(pollFds, gone) == [pollFds[0]] + Keep(pollFds[1..], gone)
    ensures Consistent(clients - gone, Keep(pollFds, gone))
  {
    var rest := pollFds[1..];
    var kept := Keep(pollFds, gone);
    KeepDistinct(pollFds, gone);
    KeepMember(rest, gone);
    assert kept[1..] == Keep(rest, gone);
    forall fd
      ensures fd in clients - gone <==> HasFd(kept[1..], fd)
    {
      if HasFd(kept[1..], fd) {
        var p :| p in kept[1..] && p.fd == fd;
        assert p in rest;
      }
      if fd in clients - gone {
        var p :| p in rest && p.fd == fd;
        assert p in kept[1..];
      }
    }
    forall i | 0 <= i < |kept|
      ensures kept[i].events == POLLIN
    {
      KeepMember(pollFds, gone);
      assert kept[i] in pollFds;
    }
  }

  // ---------------------------------------------------------------------------------------
  // Request framing

  /** Where the value of the Content-Length field starts and the text up to its line end. */
  function LengthText(headers: string, pos: nat): string {
    var valueStart := match IndexOf(headers, [':'], pos)
      case Some(c) => c + 1
      case None => 0;
    var valueEnd := match IndexOf(headers, ['\r'], valueStart)
      case Some(e) => Some(e)
      case None => IndexOf(headers, ['\n'], valueStart);
    match valueEnd
    case Some(e) => headers[valueStart..e]
    case None => if valueStart <= |headers| then headers[valueStart..] else ""
  }

  /** The first "Content-Length:" in the header section, or else the first "content-length:". */
  function LengthFieldPos(headers: string): Option<nat> {
    match IndexOf(headers, "Content-Length:", 0)
    case Some(p) => Some(p)
    case None => IndexOf(headers, "content-length:", 0)
  }

  const LONG_MIN := -0x8000_0000_0000_0000
  const LONG_MAX := 0x7FFF_FFFF_FFFF_FFFF

  /** A 64-bit value converted to a 32-bit int (taken modulo 2^32). */
  function ToInt32(v: int): (r: int)
    ensures -0x8000_0000 <= r < 0x8000_0000
    ensures -0x8000_0000 <= v < 0x8000_0000 ==> r == v
  {
    var m := v % 0x1_0000_0000;
    if m >= 0x8000_0000 then m - 0x1_0000_0000 else m
  }

  /**
   * atoi as glibc computes it, (int) strtol(s, NULL, 10): leading white space, an optional
   * sign, the longest run of decimal digits (none reads as 0), the value saturated to the
   * range of a 64-bit long and then taken to a 32-bit int.
   */
  function Atoi(s: string): (v: int)
    ensures -0x8000_0000 <= v < 0x8000_0000
  {
    var t := SkipSpaces(s);
    var negative := |t| > 0 && t[0] == '-';
    var u := if |t| > 0 && (t[0] == '-' || t[0] == '+') then t[1..] else t;
    var n: int := DigitsValue(u[..LeadingDigits(u)]);
    var long := if negative then (if -n < LONG_MIN then LONG_MIN else -n)
                else (if n > LONG_MAX then LONG_MAX else n);
    ToInt32(long)
  }

  /** headerEnd + contentLength, evaluated in 64-bit size_t arithmetic. */
  function ExpectedLength(headerEnd: nat, contentLength: int): nat {
    (headerEnd + contentLength % 0x1_0000_0000_0000_0000) % 0x1_0000_0000_0000_0000
  }

  /**
   * isRequestComplete: no blank line yet means incomplete; a header section without a
   * Content-Length field means complete; otherwise the buffer must reach the end of the
   * header section plus the field's value.
   */
  function RequestComplete(buffer: string): bool {
    match BlankLineEnd(buffer, 0)
    case None => false
    case Some(headerEnd) =>
      var headers := buffer[..headerEnd];
      match LengthFieldPos(headers)
      case None => true
      case Some(pos) =>
        |buffer| >= ExpectedLength(headerEnd, Atoi(SpaceTrimmed(LengthText(headers, pos))))
  }

  lemma {:induction false} LeadingDigitsAll(s: string)
    requires AllDigits(s)
    ensures LeadingDigits(s) == |s|
    decreases |s|
  {
    if |s| > 0 {
      LeadingDigitsAll(s[1..]);
    }
  }

  /** A plain decimal number below 2^31 reads back as its value. */
  lemma AtoiDecimal(s: string)
    requires |s| > 0 && AllDigits(s) && DigitsValue(s) < 0x8000_0000
    ensures Atoi(s) == DigitsValue(s)
  {
    assert IsDigit(s[0]) && !IsSpace(s[0]);
    assert SkipSpaces(s) == s;
    LeadingDigitsAll(s);
    assert s[..LeadingDigits(s)] == s;
    var n: int := DigitsValue(s);
    assert n <= LONG_MAX;
    assert ToInt32(n) == n;
  }

  /** Adding a value below 2^31 to a header length below 2^64 - 2^31 does not wrap. */
  lemma NoWrap(headerEnd: nat, v: nat)
    requires v < 0x8000_0000 && headerEnd < 0x1_0000_0000_0000_0000 - 0x8000_0000
    ensures ExpectedLength(headerEnd, v) == headerEnd + v
  {
  }

  /**
   * When the header section carries a plain decimal Content-Length, the request is complete
   * exactly when the buffer holds the header section and that many more bytes.
   */
  lemma CompleteByLength(buffer: string, headerEnd: nat, pos: nat)
    requires BlankLineEnd(buffer, 0) == Some(headerEnd)
    requires LengthFieldPos(buffer[..headerEnd]) == Some(pos)
    requires var v := SpaceTrimmed(LengthText(buffer[..headerEnd], pos));
      |v| > 0 && AllDigits(v) && DigitsValue(v) < 0x8000_0000
    requires headerEnd < 0x1_0000_0000_0000_0000 - 0x8000_0000
    ensures RequestComplete(buffer) <==>
      |buffer| >= headerEnd + DigitsValue(SpaceTrimmed(LengthText(buffer[..headerEnd], pos)))
  {
    var v := SpaceTrimmed(LengthText(buffer[..headerEnd], pos));
    AtoiDecimal(v);
    NoWrap(headerEnd, DigitsValue(v));
  }

  /** Without either spelling of the field, the blank line alone completes the request. */
  lemma CompleteWithoutLength(buffer: string)
    requires BlankLineEnd(buffer, 0).Some?
    requires var h := buffer[..BlankLineEnd(buffer, 0).value];
      !Contains(h, "Content-Length:") && !Contains(h, "content-length:")
    ensures RequestComplete(buffer)
  {
  }

  /** A buffer without a blank line is never a complete request. */
  lemma IncompleteWithoutBlankLine(buffer: string)
    requires !Contains(buffer, CRLFCRLF) && !Contains(buffer, LFLF)
    ensures !RequestComplete(buffer)
  {
  }

  /**
   * Once a buffer whose header section ends in "\r\n\r\n" is complete, receiving more bytes
   * keeps it complete: the header section, and so the Content-Length, do not change.
   */
  lemma CompleteStable(buffer: string, more: string)
    requires Contains(buffer, CRLFCRLF) && RequestComplete(buffer)
    ensures RequestComplete(buffer + more)
  {
    BlankLineEndAppend(buffer, more, 0);
    var h := BlankLineEnd(buffer, 0).value;
    assert (buffer + more)[..h] == buffer[..h];
  }

  // ---------------------------------------------------------------------------------------
  // Error replies

  /** sendErrorResponse: the Response it serialises and sends; the message is both the
      reason phrase and the text of the page. */
  function ErrorReply(statusCode: int, message: string): ResponseData {
    Initial
      .WithStatus(statusCode, message)
      .WithContentType("text/html")
      .WithBody(HttpHandling.ErrorPage(statusCode, message))
  }

  /**
   * The reply is the error page the request handler builds, with the message as its reason
   * phrase; the bytes sent start with the status line naming the code and the message, and
   * end with a blank line followed by the page.
   */
  lemma ErrorReplyWire(statusCode: int, message: string, date: string)
    ensures ErrorReply(statusCode, message) == HttpHandling.HtmlError(statusCode, message, message)
    ensures StartsWith(Serialize(ErrorReply(statusCode, message), date),
      "HTTP/1.1 " + IntToString(statusCode) + " " + message + CRLF)
    ensures EndsWith(Serialize(ErrorReply(statusCode, message), date),
      CRLFCRLF + HttpHandling.ErrorPage(statusCode, message))
  {
    Framing(ErrorReply(statusCode, message), date);
  }

  // ---------------------------------------------------------------------------------------
  // The manager

  /** class ConnectionManager. */
  class ConnectionManager {
    var clients: map<int, ClientConnection>
    var pollFds: seq<PollFd>

    ghost predicate Valid()
      reads this
    {
      Consistent(clients, pollFds)
    }

    /** The table starts with the listening socket alone. */
    constructor(serverFd: int)
      ensures clients == map[]
      ensures pollFds == [PollFd(serverFd, POLLIN, 0)]
      ensures Valid()
    {
      clients := map[];
      pollFds := [PollFd(serverFd, POLLIN, 0)];
    }

    /** addClient(clientFd), `now` standing for time(NULL). */
    method AddClient(clientFd: int, now: int)
      modifies this
      ensures clients == old(clients)[clientFd := NewConnection(clientFd, now)]
      ensures pollFds == old(pollFds) + [PollFd(clientFd, POLLIN, 0)]
      ensures old(Valid()) && !old(HasFd(pollFds, clientFd)) ==> Valid()
    {
      ghost var wasValid := Valid();
      ghost var isNew := !HasFd(pollFds, clientFd);
      var client := NewConnection(clientFd, now);
      clients := clients[clientFd := client];
      pollFds := pollFds + [PollFd(clientFd, POLLIN, 0)];
      if wasValid && isNew {
        AddConsistent(old(clients), old(pollFds), clientFd, now);
      }
    }

    /** removeClient(clientFd): the socket is closed as well, which is not modelled. */
    method RemoveClient(clientFd: int)
      modifies this
      ensures clients == old(clients) - {clientFd}
      ensures pollFds == EraseFirst(old(pollFds), clientFd)
      ensures |old(pollFds)| > 0 && old(pollFds)[0].fd != clientFd ==>
        |pollFds| > 0 && pollFds[0] == old(pollFds)[0]
      ensures old(Valid()) && old(pollFds)[0].fd != clientFd ==> Valid()
    {
      ghost var wasValid := Valid();
      clients := clients - {clientFd};
      var i := 0;
      while i < |pollFds|
        invariant 0 <= i <= |pollFds|
        invariant pollFds == old(pollFds)
        invariant forall j :: 0 <= j < i ==> pollFds[j].fd != clientFd
      {
        if pollFds[i].fd == clientFd {
          assert FirstFdIndex(pollFds, clientFd) == Some(i);
          pollFds := pollFds[..i] + pollFds[i + 1..];
          break;
        }
        i := i + 1;
      }
      if wasValid && old(pollFds)[0].fd != clientFd {
        EraseFirstIsKeep(old(pollFds), clientFd);
        EvictConsistent(old(clients), old(pollFds), {clientFd});
      }
    }

    /** The first loop of handleTimeouts: the expired clients, in the map's ascending order. */
    method ExpiredClients(now: int) returns (clientsToRemove: seq<int>)
      ensures clientsToRemove == ExpiredFds(clients, now)
    {
      var keys := SortedFds(clients.Keys);
      clientsToRemove := CollectExpired(clients, keys, now);
    }

    /** The loop of ExpiredClients over the keys in iteration order. */
    static method CollectExpired(table: map<int, ClientConnection>, keys: seq<int>, now: int)
      returns (clientsToRemove: seq<int>)
      requires forall k :: 0 <= k < |keys| ==> keys[k] in table
      ensures clientsToRemove == ExpiredAmong(table, keys, now)
    {
      clientsToRemove := [];
      for i := 0 to |keys|
        invariant clientsToRemove == ExpiredAmong(table, keys[..i], now)
      {
        TakeSnoc(keys, i);
        ExpiredAmongSnoc(table, keys[..i], keys[i], now);
        if now - table[keys[i]].lastActivity > CLIENT_TIMEOUT {
          clientsToRemove := clientsToRemove + [keys[i]];
        }
      }
      assert keys[..|keys|] == keys;
    }

    /** The second loop of handleTimeouts: removeClient for each fd of `fds` in turn. */
    method RemoveClients(fds: seq<int>)
      modifies this
      ensures clients == old(clients) - FdSet(fds)
      ensures pollFds == EraseEach(old(pollFds), fds)
    {
      assert fds[..0] == [];
      assert FdSet(fds[..0]) == {};
      for i := 0 to |fds|
        invariant clients == old(clients) - FdSet(fds[..i])
        invariant pollFds == EraseEach(old(pollFds), fds[..i])
      {
        TakeSnoc(fds, i);
        FdSetSnoc(fds[..i], fds[i]);
        RemoveClient(fds[i]);
      }
      assert fds[..|fds|] == fds;
    }

    /** handleTimeouts, `now` standing for time(NULL): every expired client is removed. */
    method HandleTimeouts(now: int)
      modifies this
      ensures clients == Unexpired(old(clients), now)
      ensures pollFds == EraseEach(old(pollFds), ExpiredFds(old(clients), now))
      ensures old(Valid()) ==>
        Valid() && pollFds == Keep(old(pollFds), FdSet(ExpiredFds(old(clients), now)))
    {
      ghost var wasValid := Valid();
      var clientsToRemove := ExpiredClients(now);
      RemoveClients(clientsToRemove);
      UnexpiredRemain(old(clients), now);
      if wasValid {
        TimeoutsConsistent(old(clients), old(pollFds), now);
      }
    }

    /** updateClientActivity: a known client's lastActivity becomes `now`; nothing else changes. */
    method UpdateClientActivity(clientFd: int, now: int)
      modifies this
      ensures clientFd in old(clients) ==>
        clients == old(clients)[clientFd := old(clients)[clientFd].(lastActivity := now)]
      ensures clientFd !in old(clients) ==> clients == old(clients)
      ensures pollFds == old(pollFds)
      ensures old(Valid()) ==> Valid()
    {
      if clientFd in clients {
        clients := clients[clientFd := clients[clientFd].(lastActivity := now)];
      }
    }

    /** isRequestComplete, with the two in-place trimming loops of lengthStr. */
    method IsRequestComplete(buffer: string) returns (complete: bool)
      ensures complete == RequestComplete(buffer)
    {
      var headerEnd: nat;
      var crlf := IndexOf(buffer, CRLFCRLF, 0);
      if crlf.None? {
        var lf := IndexOf(buffer, LFLF, 0);
        if lf.None? {
          return false;
        }
        headerEnd := lf.value + 2;
      } else {
        headerEnd := crlf.value + 4;
      }
      assert BlankLineEnd(buffer, 0) == Some(headerEnd);
      var headers := buffer[..headerEnd];
      var contentLengthPos := IndexOf(headers, "Content-Length:", 0);
      if contentLengthPos.None? {
        contentLengthPos := IndexOf(headers, "content-length:", 0);
      }
      if contentLengthPos.Some? {
        var lengthStr := LengthText(headers, contentLengthPos.value);
        lengthStr := TrimSpaces(lengthStr);
        var contentLength := Atoi(lengthStr);
        var totalExpectedLength := ExpectedLength(headerEnd, contentLength);
        return |buffer| >= totalExpectedLength;
      }
      return true;
    }
  }

  lemma AddConsistent(clients: map<int, ClientConnection>, pollFds: seq<PollFd>, fd: int, now: int)
    requires Consistent(clients, pollFds) && !HasFd(pollFds, fd)
    ensures Consistent(clients[fd := NewConnection(fd, now)], pollFds + [PollFd(fd, POLLIN, 0)])
  {
    var s := pollFds + [PollFd(fd, POLLIN, 0)];
    var c := clients[fd := NewConnection(fd, now)];
    assert s[1..] == pollFds[1..] + [PollFd(fd, POLLIN, 0)];
    forall i, j | 0 <= i < j < |s|
      ensures s[i].fd != s[j].fd
    {
      if j == |pollFds| {
        assert s[i] in pollFds;
      }
    }
    assert pollFds[0] in pollFds;
    forall x
      ensures x in c <==> HasFd(s[1..], x)
    {
      if HasFd(s[1..], x) && x != fd {
        var p :| p in s[1..] && p.fd == x;
        assert p in pollFds[1..];
      }
      if x in clients {
        var p :| p in pollFds[1..] && p.fd == x;
        assert p in s[1..];
      }
      if x == fd {
        assert s[|s| - 1] in s[1..];
      }
    }
  }

  // ---------------------------------------------------------------------------------------
  // std::map<int, ...> iteration order

  predicate IsMin(m: int, s: set<int>) {
    m in s && forall k :: k in s ==> m <= k
  }

  lemma {:induction false} MinExists(s: set<int>)
    requires s != {}
    ensures exists m :: IsMin(m, s)
    decreases s
  {
    if forall k :: k !in s {
      assert false;
    }
    var y :| y in s;
    if s == {y} {
      assert IsMin(y, s);
    } else {
      MinExists(s - {y});
      var m :| IsMin(m, s - {y});
      var least := if m < y then m else y;
      forall k | k in s
        ensures least <= k
      {
        if k != y {
          assert k in s - {y};
        }
      }
      assert IsMin(least, s);
    }
  }

  /** The smallest element of a non-empty set of fds. */
  function MinFd(s: set<int>): (m: int)
    requires s != {}
    ensures IsMin(m, s)
  {
    MinExists(s);
    var m :| IsMin(m, s);
    m
  }

  /** The keys of a std::map<int, ...> in iteration order: ascending. */
  function SortedFds(s: set<int>): (r: seq<int>)
    ensures forall x :: x in r <==> x in s
    ensures forall i, j :: 0 <= i < j < |r| ==> r[i] < r[j]
    decreases s
  {
    if s == {} then []
    else
      var m := MinFd(s);
      var rest := SortedFds(s - {m});
      assert forall i :: 0 <= i < |rest| ==> rest[i] in s - {m};
      [m] + rest
  }

  /** The expired clients among `keys`, in the order of `keys`. */
  function ExpiredAmong(clients: map<int, ClientConnection>, keys: seq<int>, now: int): seq<int>
    requires forall i :: 0 <= i < |keys| ==> keys[i] in clients
  {
    if |keys| == 0 then []
    else
      var init := ExpiredAmong(clients, keys[..|keys| - 1], now);
      if Expired(clients[keys[|keys| - 1]], now) then init + [keys[|keys| - 1]] else init
  }

  lemma ExpiredAmongSnoc(clients: map<int, ClientConnection>, keys: seq<int>, k: int, now: int)
    requires forall i :: 0 <= i < |keys| ==> keys[i] in clients
    requires k in clients
    ensures ExpiredAmong(clients, keys + [k], now)
      == ExpiredAmong(clients, keys, now) + (if Expired(clients[k], now) then [k] else [])
  {
    assert (keys + [k])[..|keys|] == keys;
  }

  /** The clients handleTimeouts removes, in the order it removes them. */
  function ExpiredFds(clients: map<int, ClientConnection>, now: int): seq<int> {
    ExpiredAmong(clients, SortedFds(clients.Keys), now)
  }

  /** handleTimeouts keeps the table consistent and removes exactly the expired clients' slots. */
  lemma TimeoutsConsistent(clients: map<int, ClientConnection>, pollFds: seq<PollFd>, now: int)
    requires Consistent(clients, pollFds)
    ensures EraseEach(pollFds, ExpiredFds(clients, now)) == Keep(pollFds, FdSet(ExpiredFds(clients, now)))
    ensures Consistent(clients - FdSet(ExpiredFds(clients, now)), Keep(pollFds, FdSet(ExpiredFds(clients, now))))
  {
    var gone := FdSet(ExpiredFds(clients, now));
    UnexpiredRemain(clients, now);
    EraseEachIsKeep(pollFds, ExpiredFds(clients, now));
    EvictConsistent(clients, pollFds, gone);
  }

  /** The clients that survive handleTimeouts. */
  function Unexpired(clients: map<int, ClientConnection>, now: int): map<int, ClientConnection> {
    map fd | fd in clients && !Expired(clients[fd], now) :: clients[fd]
  }

  /** The fds handleTimeouts removes are exactly the expired clients, and only they go. */
  lemma UnexpiredRemain(clients: map<int, ClientConnection>, now: int)
    ensures forall fd :: fd in FdSet(ExpiredFds(clients, now)) <==> fd in clients && Expired(clients[fd], now)
    ensures Unexpired(clients, now) == clients - FdSet(ExpiredFds(clients, now))
  {
    var keys := SortedFds(clients.Keys);
    ExpiredAmongMember(clients, keys, now);
  }

  lemma {:induction false} ExpiredAmongMember(clients: map<int, ClientConnection>, keys: seq<int>, now: int)
    requires forall i :: 0 <= i < |keys| ==> keys[i] in clients
    ensures forall x :: x in ExpiredAmong(clients, keys, now) <==> x in keys && Expired(clients[x], now)
    decreases |keys|
  {
    if |keys| > 0 {
      var init := keys[..|keys| - 1];
      ExpiredAmongMember(clients, init, now);
      assert forall x :: x in keys <==> x in init || x == keys[|keys| - 1];
    }
  }
}
