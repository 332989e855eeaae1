/**
 * The older response builder kept at the top of the repository (response.cpp): the same
 * status, header map and body, but toString writes only one header of its own,
 * Content-Length, and writes it whether or not the caller has set one.
 */
module LegacyResponses {
  import opened Wrappers
  import opened Strings
  import opened Responses

  /** The header fields the older toString writes: the map's in key order, then Content-Length. */
  function LegacyFields(d: ResponseData): seq<Field> {
    SortedEntries(d.headers) + [("Content-Length", NatToString(|d.body|))]
  }

  /** The older Response::toString. */
  function LegacySerialize(d: ResponseData): string {
    HeaderBlock(StatusText(d), LegacyFields(d)) + CRLF + d.body
  }

  /**
   * When the caller has not set Content-Length, the older toString writes each header once,
   * with Content-Length equal to the body's size.
   */
  lemma LegacyContentLength(d: ResponseData)
    requires "Content-Length" !in d.headers
    ensures DistinctNames(LegacyFields(d))
    ensures AsMap(LegacyFields(d)) == d.headers["Content-Length" := NatToString(|d.body|)]
  {
    var m := d.headers;
    var sorted := SortedEntries(m);
    var fs := LegacyFields(d);
    SortedEntriesDistinct(m);
    SortedEntriesMap(m);
    DistinctSnoc(sorted, ("Content-Length", NatToString(|d.body|)));
  }

  /** When the caller has set Content-Length, the older toString writes that field twice. */
  lemma LegacyDuplicateLength(d: ResponseData)
    requires "Content-Length" in d.headers
    ensures !DistinctNames(LegacyFields(d))
    ensures ("Content-Length", d.headers["Content-Length"]) in LegacyFields(d)
    ensures ("Content-Length", NatToString(|d.body|)) in LegacyFields(d)
  {
    var m := d.headers;
    var sorted := SortedEntries(m);
    var fs := LegacyFields(d);
    SortedEntriesMember(m);
    var i :| 0 <= i < |sorted| && sorted[i] == ("Content-Length", m["Content-Length"]);
    assert fs[i] == sorted[i];
    assert fs[|sorted|] == ("Content-Length", NatToString(|d.body|));
  }

  /**
   * The two builders agree whenever the caller has set Server and Date but not
   * Content-Length: the newer one then adds only Content-Length, as the older one does.
   */
  lemma LegacyAgreesWithCurrent(d: ResponseData, date: string)
    requires "Content-Length" !in d.headers && "Server" in d.headers && "Date" in d.headers
    ensures LegacySerialize(d) == Serialize(d, date)
  {
  }

  /** The Response object of the older response.cpp. */
  class Response {
    var statusCode: int
    var statusMessage: string
    var headers: map<string, string>
    var body: string

    function Data(): ResponseData
      reads this
    {
      ResponseData(statusCode, statusMessage, headers, body)
    }

    constructor()
      ensures Data() == Initial
    {
      statusCode, statusMessage, headers, body := 200, "OK", map[], "";
    }

    method SetStatus(code: int, message: string)
      modifies this
      ensures Data() == old(Data()).WithStatus(code, message)
    {
      statusCode, statusMessage := code, message;
    }

    method SetHeader(key: string, value: string)
      modifies this
      ensures Data() == old(Data()).WithHeader(key, value)
    {
      headers := headers[key := value];
    }

    method SetBody(b: string)
      modifies this
      ensures Data() == old(Data()).WithBody(b)
    {
      body := b;
    }

    method ToString() returns (wire: string)
      ensures wire == LegacySerialize(Data())
    {
      ghost var d := Data();
      var status := "HTTP/1.1 " + IntToString(statusCode) + " " + statusMessage;
      assert status == StatusText(d);
      wire := status + "\r\n";
      var hs, b := headers, body;
      var keys := SortedKeys(hs.Keys);
      ghost var sorted := Entries(hs, keys);
      assert sorted[..0] == [];
      for i := 0 to |keys|
        invariant wire == HeaderBlock(status, sorted[..i])
      {
        assert sorted[i] == (keys[i], hs[keys[i]]);
        TakeSnoc(sorted, i);
        HeaderBlockSnoc(status, sorted[..i], sorted[i]);
        wire := wire + keys[i] + ": " + hs[keys[i]] + "\r\n";
      }
      assert sorted[..|keys|] == sorted == SortedEntries(d.headers);
      HeaderBlockSnoc(status, sorted, ("Content-Length", NatToString(|b|)));
      wire := wire + "Content-Length" + ": " + NatToString(|b|) + "\r\n";
      wire := wire + "\r\n";
      wire := wire + b;
    }
  }
}
