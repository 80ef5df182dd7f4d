/**
 * letsencrypt/http.py: the HTTP provider the protocol engine creates for
 * every request. It keeps the request it has prepared, and records what the
 * transport delivers: the status code, the response headers as
 * (name, value) pairs parsed from the raw header lines, and the body.
 *
 * The curl transport itself is outside the model: `Perform` is handed the
 * reply the transport produced.
 */
module Http {
  import opened Common

  /** A prepared request: URL, extra header lines and, for a POST, the body. */
  datatype Request = Request(url: string, headers: seq<string>, post: Option<string>)

  /** What the transport delivers: the status code, the raw header lines in
      the order curl passes them to the header callback, and the body. */
  datatype Reply = Reply(status: int, headerLines: seq<string>, body: seq<byte>)

  /** The header lines `preparePost` puts in front of the caller's. */
  const JSON_HEADERS := ["Content-Type: application/json", "Accept: application/json"]

  const SEPARATOR := ": "

  // ---------------------------------------------------------------------
  // Header lines

  /** Index of the first occurrence of `sep` in `s`, or `|s|` when there is none. */
  function Find(s: string, sep: string): (k: nat)
    requires sep != []
    ensures k <= |s|
    ensures k < |s| ==> StartsWith(s[k..], sep)
    ensures forall j :: 0 <= j < k ==> !StartsWith(s[j..], sep)
    decreases |s|
  {
    if |s| < |sep| then |s|
    else if StartsWith(s, sep) then 0
    else
      var k := 1 + Find(s[1..], sep);
      assert forall j :: 1 <= j <= |s| ==> s[j..] == s[1..][j - 1..];
      k
  }

  /** Python's `s.split(sep, maxsplit)`. */
  function Split(s: string, sep: string, maxsplit: nat): (parts: seq<string>)
    requires sep != []
    ensures 1 <= |parts| <= maxsplit + 1
    decreases maxsplit
  {
    var k := Find(s, sep);
    if maxsplit == 0 || k == |s| then [s]
    else [s[..k]] + Split(s[k + |sep|..], sep, maxsplit - 1)
  }

  /** `__writeHeader(data)`: a status line is stored under the name
      "Response"; any other line is stored when, stripped, it holds the
      separator ": " exactly once; every other line is dropped. */
  function HeaderEntry(line: string): Option<(string, string)> {
    var data := if StartsWith(line, "HTTP/1") then "Response: " + line else line;
    var parts := Split(Strip(data), SEPARATOR, 2);
    if |parts| == 2 then Some((parts[0], parts[1])) else None
  }

  /** The pairs a header line adds: none or one. */
  function Entries(line: string): (hs: seq<(string, string)>)
    ensures |hs| <= 1
  {
    match HeaderEntry(line)
    case Some(e) => [e]
    case None => []
  }

  /** The pairs stored for a sequence of raw header lines. */
  function ParseHeaders(lines: seq<string>): (hs: seq<(string, string)>)
    ensures |hs| <= |lines|
    decreases |lines|
  {
    if lines == [] then []
    else ParseHeaders(lines[..|lines| - 1]) + Entries(lines[|lines| - 1])
  }

  lemma ParseHeadersStep(lines: seq<string>, i: nat)
    requires i < |lines|
    ensures ParseHeaders(lines[..i + 1]) == ParseHeaders(lines[..i]) + Entries(lines[i])
  {
    assert lines[..i + 1][..i] == lines[..i];
  }

  /** A stored pair is the text on either side of the only separator of
      the stripped line. */
  lemma HeaderEntrySound(line: string)
    requires HeaderEntry(line).Some?
    ensures var data := if StartsWith(line, "HTTP/1") then "Response: " + line else line;
      var (k, v) := HeaderEntry(line).value;
      Strip(data) == k + SEPARATOR + v && !Contains(k, SEPARATOR) && !Contains(v, SEPARATOR)
  {
    var data := if StartsWith(line, "HTTP/1") then "Response: " + line else line;
    SplitPair(Strip(data));
  }

  /** When splitting at most twice gives two parts, the parts are the text
      on either side of the only separator. */
  lemma SplitPair(t: string)
    requires |Split(t, SEPARATOR, 2)| == 2
    ensures var parts := Split(t, SEPARATOR, 2);
      t == parts[0] + SEPARATOR + parts[1] && !Contains(parts[0], SEPARATOR) && !Contains(parts[1], SEPARATOR)
  {
    var i := Find(t, SEPARATOR);
    var rest := t[i + 2..];
    assert Split(t, SEPARATOR, 2) == [t[..i]] + Split(rest, SEPARATOR, 1);
    assert Split(rest, SEPARATOR, 1) == [rest];
    assert Find(rest, SEPARATOR) == |rest|;
    assert t[i..i + 2] == SEPARATOR;
    assert t == t[..i] + SEPARATOR + rest;
    NoEarlierOccurrence(t, i);
    FindContains(rest);
  }

  lemma NoEarlierOccurrence(t: string, i: nat)
    requires i <= |t|
    requires forall j :: 0 <= j < i ==> !StartsWith(t[j..], SEPARATOR)
    ensures !Contains(t[..i], SEPARATOR)
  {
    var k := t[..i];
    forall j | 0 <= j <= |k| - 2 ensures !StartsWith(k[j..], SEPARATOR) {
      assert k[j..][..2] == t[j..][..2];
    }
  }

  /** The separator is found exactly when it occurs. */
  lemma FindContains(v: string)
    ensures Find(v, SEPARATOR) < |v| <==> Contains(v, SEPARATOR)
  {
    var k := Find(v, SEPARATOR);
    if k < |v| {
      assert StartsWith(v[k..], SEPARATOR);
    }
    if Contains(v, SEPARATOR) {
      var i :| 0 <= i <= |v| - 2 && StartsWith(v[i..], SEPARATOR);
      assert i < |v|;
    }
  }

  /** A well-formed field line `name: value` is stored as (name, value). */
  lemma HeaderEntryField(k: string, v: string)
    requires k != [] && v != [] && !IsSpace(k[0]) && !IsSpace(v[|v| - 1])
    requires !Contains(k, SEPARATOR) && !Contains(v, SEPARATOR)
    requires !StartsWith(k + SEPARATOR + v, "HTTP/1")
    ensures HeaderEntry(k + SEPARATOR + v) == Some((k, v))
  {
    var t := k + SEPARATOR + v;
    assert t[0] == k[0] && t[|t| - 1] == v[|v| - 1];
    StripTrimmed(t);
    SplitOnce(k, v);
  }

  /** `k + ": " + v` splits into `k` and `v` when neither holds the separator. */
  lemma SplitOnce(k: string, v: string)
    requires !Contains(k, SEPARATOR) && !Contains(v, SEPARATOR)
    ensures Split(k + SEPARATOR + v, SEPARATOR, 2) == [k, v]
  {
    var t := k + SEPARATOR + v;
    FindAfter(k, v);
    assert t[..|k|] == k && t[|k| + 2..] == v;
    FindContains(v);
    assert Split(v, SEPARATOR, 1) == [v];
  }

  /** The first separator of `k + ": " + v` is the one after `k`. */
  lemma FindAfter(k: string, v: string)
    requires !Contains(k, SEPARATOR)
    ensures Find(k + SEPARATOR + v, SEPARATOR) == |k|
  {
    var t := k + SEPARATOR + v;
    assert t[|k|..][..2] == SEPARATOR;
    forall j | 0 <= j < |k| ensures !StartsWith(t[j..], SEPARATOR) {
      if j < |k| - 1 {
        assert t[j..][..2] == k[j..][..2];
      } else {
        assert t[j..][1] == ':';
      }
    }
  }

  /** A line whose stripped text holds no separator is dropped. */
  lemma HeaderEntryNoSeparator(line: string)
    requires !StartsWith(line, "HTTP/1") && !Contains(Strip(line), SEPARATOR)
    ensures HeaderEntry(line) == None
  {
    FindContains(Strip(line));
  }

  /** A line whose stripped text holds the separator twice is dropped. */
  lemma HeaderEntryTwoSeparators(a: string, b: string, c: string)
    requires !StartsWith(a + SEPARATOR + b + SEPARATOR + c, "HTTP/1")
    requires Strip(a + SEPARATOR + b + SEPARATOR + c) == a + SEPARATOR + b + SEPARATOR + c
    requires !Contains(a, SEPARATOR) && !Contains(b, SEPARATOR)
    ensures HeaderEntry(a + SEPARATOR + b + SEPARATOR + c) == None
  {
    SplitTwice(a, b, c);
  }

  lemma SplitTwice(a: string, b: string, c: string)
    requires !Contains(a, SEPARATOR) && !Contains(b, SEPARATOR)
    ensures |Split(a + SEPARATOR + b + SEPARATOR + c, SEPARATOR, 2)| == 3
  {
    var t := a + SEPARATOR + b + SEPARATOR + c;
    var rest := b + SEPARATOR + c;
    assert t == a + SEPARATOR + rest;
    FindAfter(a, rest);
    assert t[|a| + 2..] == rest;
    FindAfter(b, c);
    assert Split(rest, SEPARATOR, 1) == [rest[..|b|]] + Split(rest[|b| + 2..], SEPARATOR, 0);
    assert Split(t, SEPARATOR, 2) == [t[..|a|]] + Split(rest, SEPARATOR, 1);
  }

  /** The status line is stored as the value of "Response". */
  lemma StatusLine(line: string)
    requires StartsWith(line, "HTTP/1") && !IsSpace(line[|line| - 1])
    requires !Contains(line, SEPARATOR)
    ensures HeaderEntry(line) == Some(("Response", line))
  {
    assert line[0] == 'H';
    assert !Contains("Response", SEPARATOR) by {
      forall i | 0 <= i <= 6 ensures !StartsWith("Response"[i..], SEPARATOR) {
        assert "Response"[i..][1] == "Response"[i + 1] != ' ';
      }
    }
    assert "Response: " + line == "Response" + SEPARATOR + line;
    HeaderEntryField("Response", line);
  }

  // ---------------------------------------------------------------------
  // Header lookup

  /** The values of the headers named `key`, compared ignoring case, in
      arrival order. */
  function HeaderValues(hs: seq<(string, string)>, key: string): (vs: seq<string>)
    ensures |vs| <= |hs|
    decreases |hs|
  {
    if hs == [] then []
    else (if Lower(hs[0].0) == Lower(key) then [hs[0].1] else []) + HeaderValues(hs[1..], key)
  }

  predicate Matches(h: (string, string), key: string) {
    Lower(h.0) == Lower(key)
  }

  lemma {:induction false} HeaderValuesAppend(a: seq<(string, string)>, b: seq<(string, string)>, key: string)
    ensures HeaderValues(a + b, key) == HeaderValues(a, key) + HeaderValues(b, key)
    decreases |a|
  {
    if a == [] {
      assert a + b == b;
    } else {
      assert (a + b)[1..] == a[1..] + b;
      HeaderValuesAppend(a[1..], b, key);
    }
  }

  /** A value is returned iff some stored header with a matching name carries it. */
  lemma {:induction false} HeaderValuesMembers(hs: seq<(string, string)>, key: string, v: string)
    ensures v in HeaderValues(hs, key) <==> exists i :: 0 <= i < |hs| && Matches(hs[i], key) && hs[i].1 == v
    decreases |hs|
  {
    if hs != [] {
      HeaderValuesMembers(hs[1..], key, v);
      if exists i :: 0 <= i < |hs| && Matches(hs[i], key) && hs[i].1 == v {
        var i :| 0 <= i < |hs| && Matches(hs[i], key) && hs[i].1 == v;
        if i > 0 {
          assert hs[1..][i - 1] == hs[i];
        }
      }
      if exists i :: 0 <= i < |hs[1..]| && Matches(hs[1..][i], key) && hs[1..][i].1 == v {
        var i :| 0 <= i < |hs[1..]| && Matches(hs[1..][i], key) && hs[1..][i].1 == v;
        assert hs[i + 1] == hs[1..][i];
      }
    }
  }

  /** No value is returned iff no stored header has a matching name; the
      first value is that of the first matching header. */
  lemma {:induction false} HeaderValuesFirst(hs: seq<(string, string)>, key: string)
    ensures HeaderValues(hs, key) == [] <==> forall i :: 0 <= i < |hs| ==> !Matches(hs[i], key)
    ensures HeaderValues(hs, key) != [] ==>
      exists i :: 0 <= i < |hs| && Matches(hs[i], key) && HeaderValues(hs, key)[0] == hs[i].1 &&
        forall j :: 0 <= j < i ==> !Matches(hs[j], key)
    decreases |hs|
  {
    if hs != [] {
      HeaderValuesFirst(hs[1..], key);
      if !Matches(hs[0], key) {
        if HeaderValues(hs, key) != [] {
          var i :| 0 <= i < |hs[1..]| && Matches(hs[1..][i], key) &&
            HeaderValues(hs[1..], key)[0] == hs[1..][i].1 &&
            forall j :: 0 <= j < i ==> !Matches(hs[1..][j], key);
          assert hs[i + 1] == hs[1..][i];
          assert forall j :: 1 <= j < i + 1 ==> hs[j] == hs[1..][j - 1];
        }
        if forall i :: 0 <= i < |hs[1..]| ==> !Matches(hs[1..][i], key) {
          assert forall i :: 1 <= i < |hs| ==> hs[i] == hs[1..][i - 1];
        }
      }
    }
  }

  /** Lookup ignores the case of the key. */
  lemma {:induction false} HeaderValuesIgnoreCase(hs: seq<(string, string)>, k1: string, k2: string)
    requires Lower(k1) == Lower(k2)
    ensures HeaderValues(hs, k1) == HeaderValues(hs, k2)
    decreases |hs|
  {
    if hs != [] {
      HeaderValuesIgnoreCase(hs[1..], k1, k2);
    }
  }

  // ---------------------------------------------------------------------
  // The provider

  class HttpProviderCurl {
    const url: string
    /** `__response`: the status code of the last perform, 0 before. */
    var response: int
    /** `__header`: the (name, value) pairs stored so far. */
    var header: seq<(string, string)>
    /** `__data`: the body received. */
    var data: seq<byte>
    /** `__curl`: the request prepared, None before the first prepare. */
    var request: Option<Request>

    constructor(url: string)
      ensures this.url == url && response == 0 && header == [] && data == [] && request == None
    {
      this.url := url;
      response := 0;
      header := [];
      data := [];
      request := None;
    }

    /** `prepareGet(moreHeader)`: a GET of the URL; status, headers and body
        are reset. */
    method PrepareGet(moreHeader: seq<string>)
      modifies this
      ensures response == 0 && header == [] && data == []
      ensures request == Some(Request(url, moreHeader, None))
    {
      data := [];
      response := 0;
      header := [];
      request := Some(Request(url, moreHeader, None));
    }

    /** `preparePost(postData, moreHeader)`: a GET prepared with the JSON
        content headers in front of the caller's, turned into a POST. */
    method PreparePost(postData: string, moreHeader: seq<string>)
      modifies this
      ensures response == 0 && header == [] && data == []
      ensures request == Some(Request(url, JSON_HEADERS + moreHeader, Some(postData)))
    {
      PrepareGet(JSON_HEADERS + moreHeader);
      request := Some(request.value.(post := Some(postData)));
    }

    /** `__writeHeader(data)`: appends the pair of a header line, if any. */
    method WriteHeader(line: string)
      modifies this
      ensures header == old(header) + Entries(line)
      ensures response == old(response) && data == old(data) && request == old(request)
    {
      var d := line;
      if StartsWith(d, "HTTP/1") {
        d := "Response: " + d;
      }
      d := Strip(d);
      var hdr := Split(d, SEPARATOR, 2);
      if |hdr| != 2 {
        return;
      }
      header := header + [(hdr[0], hdr[1])];
    }

    /** `perform()`: the header callback sees every raw line in turn, the
        body is appended to the data buffer, and the status is kept and
        returned. Without a prepared request there is no curl handle. */
    method Perform(reply: Reply) returns (r: Result<int>)
      modifies this
      ensures request.None? ==> (r == Err(AttributeError("_HttpProviderCurl__curl")) &&
        header == old(header) && data == old(data) && response == old(response))
      ensures request.Some? ==> (r == Ok(reply.status) && response == reply.status &&
        header == old(header) + ParseHeaders(reply.headerLines) && data == old(data) + reply.body)
      ensures request == old(request)
    {
      if request.None? {
        return Err(AttributeError("_HttpProviderCurl__curl"));
      }
      var lines := reply.headerLines;
      var i := 0;
      while i < |lines|
        invariant 0 <= i <= |lines|
        invariant header == old(header) + ParseHeaders(lines[..i])
        invariant data == old(data) && request == old(request)
      {
        ParseHeadersStep(lines, i);
        WriteHeader(lines[i]);
        i := i + 1;
      }
      assert lines[..i] == lines;
      data := data + reply.body;
      response := reply.status;
      return Ok(response);
    }

    /** `getHeader(key)`: the values of the headers named `key`, ignoring case. */
    method GetHeader(key: string) returns (rc: seq<string>)
      ensures rc == HeaderValues(header, key)
    {
      rc := [];
      var i := 0;
      while i < |header|
        invariant 0 <= i <= |header|
        invariant HeaderValues(header, key) == rc + HeaderValues(header[i..], key)
      {
        var (k, v) := header[i];
        assert header[i..][1..] == header[i + 1..];
        if Lower(k) == Lower(key) {
          rc := rc + [v];
        }
        i := i + 1;
      }
    }

    /** `getContentType()`: "" without a Content-Type header, else the first one. */
    method GetContentType() returns (ct: string)
      ensures HeaderValues(header, "Content-Type") == [] ==> ct == ""
      ensures HeaderValues(header, "Content-Type") != [] ==> ct == HeaderValues(header, "Content-Type")[0]
    {
      var h := GetHeader("Content-Type");
      if |h| == 0 {
        return "";
      }
      return h[0];
    }
  }
}
