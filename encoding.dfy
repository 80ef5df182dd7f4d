/**
 * letsencrypt/encoding.py: the text encodings the client uses for keys,
 * certificates and signed requests.
 *
 * - PEM armour (section 2 of RFC 7468): standard base64 wrapped at 64
 *   columns, every line ending in a newline, and the reader that collects
 *   the lines between a begin and an end marker.
 * - The unpadded URL-safe base64 of JWS (section 2 of RFC 7515), and the
 *   Base64urlUInt encoding of a big integer (section 6.3.1 of RFC 7518).
 * - A sanitiser that makes bytes printable on a console.
 */
module Encoding {
  import opened Common
  import opened Base64

  // ---------------------------------------------------------------------
  // consoleCleanBinary

  predicate Printable(c: char) {
    31 < c as int < 127
  }

  /** `consoleCleanBinary(data)`: printable ASCII kept, everything else a dot. */
  function ConsoleCleanBinary(data: string): (r: string)
    ensures |r| == |data|
    ensures forall i :: 0 <= i < |data| ==> r[i] == if Printable(data[i]) then data[i] else '.'
    decreases |data|
  {
    if data == [] then ""
    else [if Printable(data[0]) then data[0] else '.'] + ConsoleCleanBinary(data[1..])
  }

  /** Cleaning is idempotent: its output is entirely printable. */
  lemma ConsoleCleanIdempotent(data: string)
    ensures ConsoleCleanBinary(ConsoleCleanBinary(data)) == ConsoleCleanBinary(data)
  {
  }

  // ---------------------------------------------------------------------
  // toPem

  const PEM_WIDTH := 64

  /** `textwrap.wrap(s, width)` for a text without whitespace: consecutive
      chunks of `width` characters, the last one possibly shorter. */
  function Wrap(s: string, width: nat): (lines: seq<string>)
    requires width > 0
    decreases |s|
  {
    if s == [] then []
    else if |s| <= width then [s]
    else [s[..width]] + Wrap(s[width..], width)
  }

  /** Chunks are non-empty, at most `width` long, all but the last exactly
      `width` long, and together spell `s` again. */
  lemma {:induction false} WrapShape(s: string, width: nat)
    requires width > 0
    ensures var lines := Wrap(s, width);
      Concat(lines) == s &&
      (lines == [] <==> s == []) &&
      (forall k :: 0 <= k < |lines| ==> 0 < |lines[k]| <= width) &&
      (forall k :: 0 <= k < |lines| - 1 ==> |lines[k]| == width)
    decreases |s|
  {
    if |s| > width {
      WrapShape(s[width..], width);
      assert s == s[..width] + s[width..];
    }
  }

  /** `toPem(data)`: the base64 text cut into lines of 64, joined with
      newlines, and a final newline. */
  function ToPem(data: seq<byte>): (r: string)
    ensures |r| > 0 && r[|r| - 1] == '\n'
  {
    Join(Wrap(Encode(data), PEM_WIDTH), "\n") + "\n"
  }

  /** The lines `toPem` produces, without their newlines (an empty input
      still yields one empty line). */
  function PemLines(data: seq<byte>): (lines: seq<string>)
    ensures lines != []
  {
    var w := Wrap(Encode(data), PEM_WIDTH);
    if w == [] then [""] else w
  }

  lemma PemLinesSymbols(data: seq<byte>)
    ensures forall k :: 0 <= k < |PemLines(data)| ==> IsBase64Text(PemLines(data)[k])
  {
    var e := Encode(data);
    EncodeShape(data);
    assert IsBase64Text(e);
    var w := Wrap(e, PEM_WIDTH);
    WrapChunks(e, PEM_WIDTH);
    forall k | 0 <= k < |w| ensures IsBase64Text(w[k]) {
      var lo := k * PEM_WIDTH;
      forall j | 0 <= j < |w[k]| ensures IsSymbol(w[k][j]) || w[k][j] == '=' {
        assert w[k][j] == e[lo + j];
      }
    }
  }

  /** Every chunk is a slice of the wrapped text. */
  lemma {:induction false} WrapChunks(s: string, width: nat)
    requires width > 0
    ensures forall k :: 0 <= k < |Wrap(s, width)| ==>
      k * width + |Wrap(s, width)[k]| <= |s| &&
      Wrap(s, width)[k] == s[k * width .. k * width + |Wrap(s, width)[k]|]
    decreases |s|
  {
    if |s| > width {
      var rest := s[width..];
      WrapChunks(rest, width);
      var w := Wrap(s, width);
      forall k | 0 <= k < |w|
        ensures k * width + |w[k]| <= |s| && w[k] == s[k * width .. k * width + |w[k]|]
      {
        if k > 0 {
          var wr := Wrap(rest, width);
          assert w[k] == wr[k - 1];
          ChunkSlice(s, width, k - 1, |w[k]|);
        }
      }
    }
  }

  /** A slice of `s[width..]` is the slice of `s` one width further on. */
  lemma ChunkSlice(s: string, width: nat, j: nat, len: nat)
    requires width < |s| && j * width + len <= |s| - width
    ensures (j + 1) * width + len <= |s|
    ensures s[width..][j * width .. j * width + len] == s[(j + 1) * width .. (j + 1) * width + len]
  {
    assert (j + 1) * width == j * width + width;
  }

  lemma ToPemLines(data: seq<byte>)
    ensures ToPem(data) == Terminated(PemLines(data))
  {
    var w := Wrap(Encode(data), PEM_WIDTH);
    if w != [] {
      JoinTerminated(w);
    }
  }

  /** `toPem` output: every line ends in a newline, holds at most 64
      characters, and all lines but the last hold exactly 64. */
  lemma ToPemShape(data: seq<byte>)
    ensures var lines := PemLines(data);
      ToPem(data) == Terminated(lines) &&
      (forall k :: 0 <= k < |lines| ==> |lines[k]| <= PEM_WIDTH) &&
      (forall k :: 0 <= k < |lines| - 1 ==> |lines[k]| == PEM_WIDTH)
  {
    ToPemLines(data);
    WrapShape(Encode(data), PEM_WIDTH);
  }

  lemma {:induction false} RemoveTerminated(lines: seq<string>)
    requires forall k, j :: 0 <= k < |lines| && 0 <= j < |lines[k]| ==> lines[k][j] != '\n'
    ensures Remove(Terminated(lines), '\n') == Concat(lines)
    decreases |lines|
  {
    if lines != [] {
      var first, rest := lines[0], lines[1..];
      forall k, j | 0 <= k < |rest| && 0 <= j < |rest[k]| ensures rest[k][j] != '\n' {
        assert rest[k] == lines[k + 1];
      }
      RemoveTerminated(rest);
      assert Terminated(lines) == first + "\n" + Terminated(rest);
      forall j | 0 <= j < |first| ensures first[j] != '\n' {
        assert first == lines[0];
      }
      RemoveLine(first, Terminated(rest));
      assert Concat(lines) == first + Concat(rest);
    }
  }

  /** Deleting the newlines of one line and what follows it. */
  lemma RemoveLine(first: string, more: string)
    requires forall j :: 0 <= j < |first| ==> first[j] != '\n'
    ensures Remove(first + "\n" + more, '\n') == first + Remove(more, '\n')
  {
    var line := first + "\n";
    RemoveAppend(first, "\n", '\n');
    RemoveAbsent(first, '\n');
    assert Remove("\n", '\n') == "";
    assert Remove(line, '\n') == first + "" == first;
    RemoveAppend(line, more, '\n');
  }

  /** Deleting the newlines of `toPem(data)` gives exactly `b64encode(data)`. */
  lemma ToPemUnwrapped(data: seq<byte>)
    ensures Remove(ToPem(data), '\n') == Encode(data)
  {
    ToPemShape(data);
    PemLinesSymbols(data);
    WrapShape(Encode(data), PEM_WIDTH);
    var lines := PemLines(data);
    forall k, j | 0 <= k < |lines| && 0 <= j < |lines[k]| ensures lines[k][j] != '\n' {
      assert IsBase64Text(lines[k]);
    }
    RemoveTerminated(lines);
  }

  // ---------------------------------------------------------------------
  // fromPem

  /** Index of the first newline of `s`, or `|s|` when there is none. */
  function NewlineAt(s: string): (k: nat)
    ensures k <= |s| && (k < |s| ==> s[k] == '\n')
    ensures forall j :: 0 <= j < k ==> s[j] != '\n'
    decreases |s|
  {
    if s == [] then 0 else if s[0] == '\n' then 0 else 1 + NewlineAt(s[1..])
  }

  /** `fp.readlines()`: the lines of a text, each keeping its newline; a
      last line without one is kept as it is. */
  function ReadLines(text: string): (lines: seq<string>)
    decreases |text|
  {
    if text == [] then []
    else
      var n := if NewlineAt(text) < |text| then NewlineAt(text) + 1 else |text|;
      [text[..n]] + ReadLines(text[n..])
  }

  function WithNewlines(lines: seq<string>): (r: seq<string>)
    ensures |r| == |lines| && forall k :: 0 <= k < |lines| ==> r[k] == lines[k] + "\n"
  {
    if lines == [] then [] else [lines[0] + "\n"] + WithNewlines(lines[1..])
  }

  /** Reading back a text written line by line gives those lines. */
  lemma {:induction false} ReadLinesTerminated(lines: seq<string>)
    requires forall k, j :: 0 <= k < |lines| && 0 <= j < |lines[k]| ==> lines[k][j] != '\n'
    ensures ReadLines(Terminated(lines)) == WithNewlines(lines)
    decreases |lines|
  {
    if lines != [] {
      var t := Terminated(lines);
      var l := lines[0];
      assert t == l + "\n" + Terminated(lines[1..]);
      NewlineAtLine(l, Terminated(lines[1..]));
      assert t[..|l| + 1] == l + "\n";
      assert t[|l| + 1..] == Terminated(lines[1..]);
      ReadLinesTerminated(lines[1..]);
    }
  }

  lemma NewlineAtLine(l: string, rest: string)
    requires forall j :: 0 <= j < |l| ==> l[j] != '\n'
    ensures NewlineAt(l + "\n" + rest) == |l|
  {
    var t := l + "\n" + rest;
    assert t[|l|] == '\n';
    assert forall j :: 0 <= j < |l| ==> t[j] == l[j];
  }

  lemma {:induction false} TerminatedAppend(a: seq<string>, b: seq<string>)
    ensures Terminated(a + b) == Terminated(a) + Terminated(b)
    decreases |a|
  {
    if a != [] {
      assert (a + b)[1..] == a[1..] + b;
      TerminatedAppend(a[1..], b);
    } else {
      assert a + b == b;
    }
  }

  /** What `fromPem` returns: `None` when no end marker occurs, the
      decoded bytes, or the `TypeError` Python 2's `b64decode` raises. */
  function DecodeText(text: string): (r: Result<Option<seq<byte>>>) {
    match Decode(text)
    case Some(d) => Ok(Some(d))
    case None => Err(TypeError)
  }

  /** The result of `fromPem` on the remaining `lines`, with `acc` the text
      collected so far. */
  function PemScan(lines: seq<string>, begin: string, end: string, acc: string): Result<Option<seq<byte>>>
    decreases |lines|
  {
    if lines == [] then Ok(None)
    else
      var line := Strip(lines[0]);
      if line == begin then PemScan(lines[1..], begin, end, "")
      else if line == end then DecodeText(acc)
      else PemScan(lines[1..], begin, end, acc + line)
  }

  /** `fromPem(fp, begin, end)` over the lines of `fp`. */
  method FromPem(lines: seq<string>, begin: string, end: string) returns (r: Result<Option<seq<byte>>>)
    ensures r == PemScan(lines, begin, end, "")
  {
    var rcTxt := "";
    var i := 0;
    while i < |lines|
      invariant 0 <= i <= |lines|
      invariant PemScan(lines[i..], begin, end, rcTxt) == PemScan(lines, begin, end, "")
    {
      assert lines[i..][1..] == lines[i + 1..];
      var line := Strip(lines[i]);
      if line == begin {
        rcTxt := "";
        i := i + 1;
        continue;
      }
      if line == end {
        return DecodeText(rcTxt);
      }
      rcTxt := rcTxt + line;
      i := i + 1;
    }
    return Ok(None);
  }

  /** Without an end-marker line `fromPem` returns None, whatever it collected. */
  lemma {:induction false} PemScanNoEnd(lines: seq<string>, begin: string, end: string, acc: string)
    requires forall k :: 0 <= k < |lines| ==> Strip(lines[k]) != end
    ensures PemScan(lines, begin, end, acc) == Ok(None)
    decreases |lines|
  {
    if lines != [] {
      var line := Strip(lines[0]);
      PemScanNoEnd(lines[1..], begin, end, if line == begin then "" else acc + line);
    }
  }

  /** A begin-marker line discards everything collected before it. */
  lemma PemScanReset(begin: string, end: string, rest: seq<string>, acc: string, line: string)
    requires Strip(line) == begin
    ensures PemScan([line] + rest, begin, end, acc) == PemScan(rest, begin, end, "")
  {
    assert ([line] + rest)[1..] == rest;
  }

  /** Text made of base64 symbols and padding only. */
  predicate IsBase64Text(l: string) {
    forall j :: 0 <= j < |l| ==> IsSymbol(l[j]) || l[j] == '='
  }

  /** A marker line as PEM files use it: no surrounding whitespace, no
      newline, and a character that base64 text never contains. */
  predicate IsMarker(m: string) {
    m != [] && !IsSpace(m[0]) && !IsSpace(m[|m| - 1]) &&
    (forall j :: 0 <= j < |m| ==> m[j] != '\n') &&
    (exists j :: 0 <= j < |m| && !IsSymbol(m[j]) && m[j] != '=')
  }

  lemma MarkerIsNotBase64(m: string, l: string)
    requires IsMarker(m) && IsBase64Text(l)
    ensures l != m
  {
    var j :| 0 <= j < |m| && !IsSymbol(m[j]) && m[j] != '=';
    assert !(IsSymbol(m[j]) || m[j] == '=');
  }

  /** Stripping a line read back from a file: the newline goes, and nothing
      else when the text has no whitespace at its ends. */
  lemma StripLine(l: string)
    requires l == [] || (!IsSpace(l[0]) && !IsSpace(l[|l| - 1]))
    ensures Strip(l + "\n") == l
  {
    var t := l + "\n";
    if l == [] {
      assert t == "\n" && IsSpace(t[0]) && t[1..] == [];
      assert StripLeft(t) == StripLeft([]) == [];
    } else {
      assert !IsSpace(t[0]);
      assert StripLeft(t) == t;
      assert t[..|t| - 1] == l;
      assert StripRight(t) == StripRight(l);
    }
  }

  lemma StripBase64Line(l: string)
    requires IsBase64Text(l)
    ensures Strip(l + "\n") == l
  {
    if l != [] {
      assert IsSymbol(l[0]) || l[0] == '=';
      assert IsSymbol(l[|l| - 1]) || l[|l| - 1] == '=';
    }
    StripLine(l);
  }

  /** A line of base64 text is appended to what has been collected. */
  lemma PemScanLine(l: string, rest: seq<string>, begin: string, end: string, acc: string)
    requires IsMarker(begin) && IsMarker(end) && IsBase64Text(l)
    ensures PemScan([l + "\n"] + rest, begin, end, acc) == PemScan(rest, begin, end, acc + l)
  {
    StripBase64Line(l);
    MarkerIsNotBase64(begin, l);
    MarkerIsNotBase64(end, l);
    assert ([l + "\n"] + rest)[1..] == rest;
  }

  /** Scanning the body lines of a PEM block collects exactly their text. */
  lemma {:induction false} PemScanBody(body: seq<string>, begin: string, end: string, acc: string)
    requires IsMarker(begin) && IsMarker(end) && begin != end
    requires forall k :: 0 <= k < |body| ==> IsBase64Text(body[k])
    ensures PemScan(WithNewlines(body) + [end + "\n"], begin, end, acc) == DecodeText(acc + Concat(body))
    decreases |body|
  {
    if body == [] {
      StripLine(end);
      assert WithNewlines(body) + [end + "\n"] == [end + "\n"];
      assert acc + Concat(body) == acc;
    } else {
      var l := body[0];
      var rest := WithNewlines(body[1..]) + [end + "\n"];
      assert WithNewlines(body) + [end + "\n"] == [l + "\n"] + rest;
      PemScanLine(l, rest, begin, end, acc);
      PemScanBody(body[1..], begin, end, acc + l);
      assert acc + l + Concat(body[1..]) == acc + Concat(body);
    }
  }

  /** Round trip: reading back a begin line, the lines of `toPem(data)` and
      an end line yields `data`. */
  lemma PemRoundTrip(data: seq<byte>, begin: string, end: string)
    requires IsMarker(begin) && IsMarker(end) && begin != end
    ensures PemScan(ReadLines(begin + "\n" + ToPem(data) + end + "\n"), begin, end, "") == Ok(Some(data))
  {
    var body := PemLines(data);
    PemFileLines(data, begin, end);
    var tail := WithNewlines(body) + [end + "\n"];
    WithNewlinesFile(begin, body, end);
    StripLine(begin);
    PemScanReset(begin, end, tail, "", begin + "\n");
    PemBodyDecodes(data, begin, end);
  }

  lemma WithNewlinesFile(begin: string, body: seq<string>, end: string)
    ensures WithNewlines([begin] + body + [end]) == [begin + "\n"] + (WithNewlines(body) + [end + "\n"])
  {
    var all := [begin] + body + [end];
    var r := [begin + "\n"] + (WithNewlines(body) + [end + "\n"]);
    assert |WithNewlines(all)| == |r|;
    forall k | 0 <= k < |r| ensures WithNewlines(all)[k] == r[k] {
      if 0 < k < |all| - 1 {
        assert all[k] == body[k - 1];
      }
    }
  }

  /** The lines of `toPem(data)` followed by the end marker decode to `data`. */
  lemma PemBodyDecodes(data: seq<byte>, begin: string, end: string)
    requires IsMarker(begin) && IsMarker(end) && begin != end
    ensures PemScan(WithNewlines(PemLines(data)) + [end + "\n"], begin, end, "") == Ok(Some(data))
  {
    var body := PemLines(data);
    PemLinesSymbols(data);
    PemScanBody(body, begin, end, "");
    WrapShape(Encode(data), PEM_WIDTH);
    assert "" + Concat(body) == Encode(data);
    DecodeEncode(data);
  }

  /** The lines of a PEM file: the begin marker, the lines of `toPem`, the end marker. */
  lemma PemFileLines(data: seq<byte>, begin: string, end: string)
    requires IsMarker(begin) && IsMarker(end)
    ensures ReadLines(begin + "\n" + ToPem(data) + end + "\n") == WithNewlines([begin] + PemLines(data) + [end])
  {
    var body := PemLines(data);
    var all := [begin] + body + [end];
    ToPemLines(data);
    TerminatedAppend([begin] + body, [end]);
    TerminatedAppend([begin], body);
    assert begin + "\n" + ToPem(data) + end + "\n" == Terminated(all);
    PemLinesSymbols(data);
    forall k, j | 0 <= k < |all| && 0 <= j < |all[k]| ensures all[k][j] != '\n' {
      if 0 < k < |all| - 1 {
        assert all[k] == body[k - 1];
        assert IsBase64Text(body[k - 1]);
      }
    }
    ReadLinesTerminated(all);
  }

  // ---------------------------------------------------------------------
  // dataToJwsBase64

  /** `dataToJwsBase64(data)`: URL-safe base64 with every '=' removed. */
  function DataToJwsBase64(data: seq<byte>): (r: string)
    ensures forall i :: 0 <= i < |r| ==> r[i] != '='
  {
    Remove(UrlSafe(Encode(data)), '=')
  }

  /** Reading unpadded URL-safe base64: translate back, restore the padding
      to a multiple of four, decode. */
  function JwsBase64Decode(s: string): Option<seq<byte>> {
    Decode(FromUrlSafe(s) + Repeat('=', (4 - |s| % 4) % 4))
  }

  lemma UrlSafeAppend(a: string, b: string)
    ensures UrlSafe(a + b) == UrlSafe(a) + UrlSafe(b)
  {
  }

  /** The JWS form is the URL-safe translation of the symbols before the padding. */
  lemma JwsIsUnpadded(data: seq<byte>)
    ensures DataToJwsBase64(data) == UrlSafe(Unpadded(data))
  {
    var u := Unpadded(data);
    var p := Padding(|data|);
    UnpaddedShape(data);
    UrlSafeAppend(u, p);
    assert UrlSafe(p) == p;
    RemoveAppend(UrlSafe(u), p, '=');
    RemoveAbsent(UrlSafe(u), '=');
    assert Remove(p, '=') == "" by {
      PaddingRemoved(|p|);
    }
  }

  lemma {:induction false} PaddingRemoved(n: nat)
    ensures Remove(Repeat('=', n), '=') == ""
  {
    if n > 0 {
      assert Repeat('=', n)[1..] == Repeat('=', n - 1);
      PaddingRemoved(n - 1);
    }
  }

  /** The JWS form has no '=', uses only `[A-Za-z0-9_-]`, and is
      `ceil(4 * |data| / 3)` characters long. */
  lemma JwsAlphabet(data: seq<byte>)
    ensures var s := DataToJwsBase64(data);
      |s| == (4 * |data| + 2) / 3 &&
      forall i :: 0 <= i < |s| ==> IsUrlSymbol(s[i]) && s[i] != '='
  {
    JwsIsUnpadded(data);
    UnpaddedShape(data);
  }

  lemma PadCount(n: nat, m: nat)
    requires m == (4 * n + 2) / 3
    ensures (4 - m % 4) % 4 == (3 - n % 3) % 3
  {
    var k, r := n / 3, n % 3;
    assert n == 3 * k + r;
    assert m == 4 * k + (4 * r + 2) / 3;
  }

  lemma RepadCount(n: nat, m: nat)
    requires m == (4 * n + 2) / 3
    ensures Repeat('=', (4 - m % 4) % 4) == Padding(n)
  {
    PadCount(n, m);
  }

  /** Round trip: re-padding and URL-safe decoding the JWS form gives the input. */
  lemma JwsRoundTrip(data: seq<byte>)
    ensures JwsBase64Decode(DataToJwsBase64(data)) == Some(data)
  {
    Repadded(data);
    DecodeEncode(data);
  }

  /** Re-padding the JWS form restores `b64encode(data)`. */
  lemma Repadded(data: seq<byte>)
    ensures var s := DataToJwsBase64(data);
      FromUrlSafe(s) + Repeat('=', (4 - |s| % 4) % 4) == Encode(data)
  {
    var s := DataToJwsBase64(data);
    var u := Unpadded(data);
    JwsIsUnpadded(data);
    UnpaddedShape(data);
    UrlSafeInverse(u);
    RepadCount(|data|, |s|);
  }

  // ---------------------------------------------------------------------
  // numberToBase64

  function HexDigit(v: int): (c: char)
    requires 0 <= v < 16
  {
    if v < 10 then ('0' as int + v) as char else ('a' as int + v - 10) as char
  }

  predicate IsHexDigit(c: char) { '0' <= c <= '9' || 'a' <= c <= 'f' }

  function HexValue(c: char): (v: int)
    requires IsHexDigit(c)
    ensures 0 <= v < 16
  {
    if c <= '9' then c as int - '0' as int else c as int - 'a' as int + 10
  }

  /** `"%x" % n`: lower-case hexadecimal without leading zeros. */
  function Hex(n: nat): (h: string)
    ensures h != [] && forall i :: 0 <= i < |h| ==> IsHexDigit(h[i])
    ensures n > 0 ==> h[0] != '0'
    decreases n
  {
    if n < 16 then [HexDigit(n)] else Hex(n / 16) + [HexDigit(n % 16)]
  }

  /** The number a hexadecimal text denotes. */
  function HexNumber(h: string): nat
    requires forall i :: 0 <= i < |h| ==> IsHexDigit(h[i])
    decreases |h|
  {
    if h == [] then 0 else 16 * HexNumber(h[..|h| - 1]) + HexValue(h[|h| - 1])
  }

  /** The hex text padded with one leading zero when its length is odd. */
  function EvenHex(n: nat): (h: string)
    ensures |h| % 2 == 0 && |h| >= 2
    ensures forall i :: 0 <= i < |h| ==> IsHexDigit(h[i])
  {
    var x := Hex(n);
    if |x| % 2 == 1 then "0" + x else x
  }

  /** `unhexlify(h)` for an even-length hexadecimal text. */
  function Unhexlify(h: string): (b: seq<byte>)
    requires |h| % 2 == 0
    requires forall i :: 0 <= i < |h| ==> IsHexDigit(h[i])
    ensures |b| == |h| / 2
    decreases |h|
  {
    if h == [] then []
    else Unhexlify(h[..|h| - 2]) + [HexValue(h[|h| - 2]) * 16 + HexValue(h[|h| - 1])]
  }

  /** The number a big-endian byte string denotes. */
  function BigEndian(b: seq<byte>): nat
    decreases |b|
  {
    if b == [] then 0 else 256 * BigEndian(b[..|b| - 1]) + b[|b| - 1]
  }

  /** The bytes `numberToBase64` encodes. */
  function NumberBytes(n: nat): seq<byte> {
    Unhexlify(EvenHex(n))
  }

  /** `numberToBase64(number)`. */
  function NumberToBase64(n: nat): string {
    DataToJwsBase64(NumberBytes(n))
  }

  /** The JWK text of a number decodes back to its big-endian bytes. */
  lemma NumberToBase64Decodes(n: nat)
    ensures JwsBase64Decode(NumberToBase64(n)) == Some(NumberBytes(n))
  {
    JwsRoundTrip(NumberBytes(n));
  }

  lemma {:induction false} HexDenotes(n: nat)
    ensures HexNumber(Hex(n)) == n
    decreases n
  {
    if n >= 16 {
      HexDenotes(n / 16);
      assert Hex(n)[..|Hex(n)| - 1] == Hex(n / 16);
    }
  }

  lemma {:induction false} LeadingZero(h: string)
    requires forall i :: 0 <= i < |h| ==> IsHexDigit(h[i])
    ensures HexNumber("0" + h) == HexNumber(h)
    decreases |h|
  {
    if h != [] {
      assert ("0" + h)[..|h|] == "0" + h[..|h| - 1];
      LeadingZero(h[..|h| - 1]);
    }
  }

  lemma {:induction false} UnhexlifyDenotes(h: string)
    requires |h| % 2 == 0
    requires forall i :: 0 <= i < |h| ==> IsHexDigit(h[i])
    ensures BigEndian(Unhexlify(h)) == HexNumber(h)
    decreases |h|
  {
    if h != [] {
      var p := h[..|h| - 2];
      UnhexlifyDenotes(p);
      assert h[..|h| - 1][..|h| - 2] == p;
      var b := Unhexlify(h);
      assert b[..|b| - 1] == Unhexlify(p);
    }
  }

  lemma {:induction false} UnhexlifyFirst(h: string)
    requires |h| % 2 == 0 && |h| >= 2
    requires forall i :: 0 <= i < |h| ==> IsHexDigit(h[i])
    ensures Unhexlify(h)[0] == HexValue(h[0]) * 16 + HexValue(h[1])
    decreases |h|
  {
    if |h| > 2 {
      UnhexlifyFirst(h[..|h| - 2]);
    }
  }

  /** `numberToBase64` encodes the minimal big-endian bytes of the number:
      they denote it, and only zero is written with a leading zero byte. */
  lemma NumberBytesMinimal(n: nat)
    ensures BigEndian(NumberBytes(n)) == n
    ensures |NumberBytes(n)| >= 1
    ensures |NumberBytes(n)| == 1 || NumberBytes(n)[0] != 0
  {
    var x := Hex(n);
    var h := EvenHex(n);
    HexDenotes(n);
    if |x| % 2 == 1 { LeadingZero(x); }
    UnhexlifyDenotes(h);
    UnhexlifyFirst(h);
    if n > 0 && |h| > 2 {
      if |x| % 2 == 1 {
        assert h[1] == x[0];
      } else {
        assert h[0] == x[0];
      }
    }
  }

  /** The public exponent 65537 is written "AQAB". */
  lemma NumberToBase64Exponent()
    ensures NumberToBase64(65537) == "AQAB"
  {
    ExponentBytes();
    ExponentUnpadded();
    NumberToBase64Via(65537, [1, 0, 1], "AQAB");
  }

  /** The text of `n` read off its bytes and their unpadded symbols. */
  lemma NumberToBase64Via(n: nat, b: seq<byte>, u: string)
    requires NumberBytes(n) == b && Unpadded(b) == u
    requires forall i :: 0 <= i < |u| ==> u[i] != '+' && u[i] != '/'
    ensures NumberToBase64(n) == u
  {
    JwsIsUnpadded(b);
    UrlSafeIdentity(u);
  }

  lemma ExponentBytes()
    ensures NumberBytes(65537) == [1, 0, 1]
  {
    assert Hex(1) == "1";
    assert Hex(16) == "10";
    assert Hex(256) == "100";
    assert Hex(4096) == "1000";
    assert Hex(65537) == "10001";
    var h := EvenHex(65537);
    assert h == "010001";
    assert h[..4] == "0100" && h[..4][..2] == "01";
    assert Unhexlify("01") == [1];
    assert Unhexlify("0100") == [1, 0];
  }

  lemma ExponentUnpadded()
    ensures Unpadded([1, 0, 1]) == "AQAB"
  {
    var d: seq<byte> := [1, 0, 1];
    QuadOfExponent();
    assert d[3..] == [];
    assert Unpadded(d) == Quad(1, 0, 1) + Unpadded([]);
  }

  /** Text without '+' and '/' is unchanged by the URL-safe translation. */
  lemma UrlSafeIdentity(s: string)
    requires forall i :: 0 <= i < |s| ==> s[i] != '+' && s[i] != '/'
    ensures UrlSafe(s) == s
  {
  }

  lemma QuadOfExponent()
    ensures Quad(1, 0, 1) == "AQAB"
  {
    assert Symbol(0) == 'A' && Symbol(16) == 'Q' && Symbol(1) == 'B';
    assert 1 % 4 * 16 + 0 / 16 == 16 && 0 % 16 * 4 + 1 / 64 == 0 && 1 % 64 == 1;
  }

  /** Zero is written as one zero byte, "AA". */
  lemma NumberToBase64Zero()
    ensures NumberBytes(0) == [0]
    ensures NumberToBase64(0) == "AA"
  {
    assert Hex(0) == "0";
    assert EvenHex(0) == "00";
    var b := NumberBytes(0);
    assert b == [0];
    JwsIsUnpadded(b);
    UnpaddedZero();
    UrlSafeIdentity("AA");
  }

  lemma UnpaddedZero()
    ensures Unpadded([0]) == "AA"
  {
    var d: seq<byte> := [0];
    assert d[0] / 4 == 0 && d[0] % 4 * 16 == 0;
    assert Symbol(0) == 'A';
  }
}
