/**
 * letsencrypt/cert.py: the certificate signing request, the issued
 * certificate and the account key pair.
 *
 * The two certificate objects hold the DER bytes loaded from a stream and
 * write them back as a PEM block. The key pair gives the public key as a
 * JWK (section 6.3.1 of RFC 7518), its thumbprint input (section 3 of
 * RFC 7638) and the compact JWS serialisation of a request (section 7.1 of
 * RFC 7515). RSA, SHA-256 and the JWS library are outside the model: they
 * are the functions of a `Crypto` value.
 */
module Cert {
  import opened Common
  import opened JsonValue
  import opened Base64
  import opened Encoding

  const CSR_BEGIN := "-----BEGIN CERTIFICATE REQUEST-----"
  const CSR_END := "-----END CERTIFICATE REQUEST-----"
  const CERT_BEGIN := "-----BEGIN CERTIFICATE-----"
  const CERT_END := "-----END CERTIFICATE-----"

  lemma CsrMarkers()
    ensures IsMarker(CSR_BEGIN) && IsMarker(CSR_END) && CSR_BEGIN != CSR_END
  {
    assert !IsSymbol(CSR_BEGIN[0]) && CSR_BEGIN[0] != '=';
    assert !IsSymbol(CSR_END[0]) && CSR_END[0] != '=';
    assert CSR_BEGIN[5] != CSR_END[5];
  }

  lemma CertMarkers()
    ensures IsMarker(CERT_BEGIN) && IsMarker(CERT_END) && CERT_BEGIN != CERT_END
  {
    assert !IsSymbol(CERT_BEGIN[0]) && CERT_BEGIN[0] != '=';
    assert !IsSymbol(CERT_END[0]) && CERT_END[0] != '=';
    assert CERT_BEGIN[5] != CERT_END[5];
  }

  // ---------------------------------------------------------------------
  // Streams. A Python 2 `str` is a byte string: a file holds bytes, and
  // the text read from or written to it is those bytes one per character.

  predicate IsLatin1(s: string) {
    forall i :: 0 <= i < |s| ==> s[i] as int < 256
  }

  /** The characters of a byte string. */
  function Latin1(b: seq<byte>): (s: string)
    ensures |s| == |b| && forall i :: 0 <= i < |b| ==> s[i] as int == b[i]
  {
    if b == [] then "" else [b[0] as char] + Latin1(b[1..])
  }

  /** The bytes of a text whose characters are all bytes. */
  function Octets(s: string): (b: seq<byte>)
    requires IsLatin1(s)
    ensures |b| == |s| && forall i :: 0 <= i < |s| ==> b[i] == s[i] as int
  {
    if s == [] then [] else [s[0] as int] + Octets(s[1..])
  }

  lemma Latin1Octets(s: string)
    requires IsLatin1(s)
    ensures Latin1(Octets(s)) == s
  {
    var t := Latin1(Octets(s));
    assert |t| == |s|;
    forall i | 0 <= i < |s| ensures t[i] == s[i] {
      assert t[i] as int == s[i] as int;
    }
  }

  lemma Latin1Concat(a: string, b: string)
    requires IsLatin1(a) && IsLatin1(b)
    ensures IsLatin1(a + b)
  {
    forall i | 0 <= i < |a + b| ensures (a + b)[i] as int < 256 {
      if i < |a| { assert (a + b)[i] == a[i]; } else { assert (a + b)[i] == b[i - |a|]; }
    }
  }

  lemma OctetsConcat(a: string, b: string)
    requires IsLatin1(a) && IsLatin1(b)
    ensures IsLatin1(a + b) && Octets(a + b) == Octets(a) + Octets(b)
  {
    Latin1Concat(a, b);
    var x, y := Octets(a + b), Octets(a) + Octets(b);
    assert |x| == |y|;
    forall i | 0 <= i < |x| ensures x[i] == y[i] {
      if i < |a| { assert (a + b)[i] == a[i]; } else { assert (a + b)[i] == b[i - |a|]; }
    }
  }

  /** An output stream opened for writing: what has been written so far. */
  class OutStream {
    var written: seq<byte>

    constructor()
      ensures written == []
    {
      written := [];
    }

    /** `fp.write(s)`. */
    method Write(s: string)
      requires IsLatin1(s)
      modifies this
      ensures written == old(written) + Octets(s)
    {
      written := written + Octets(s);
    }
  }

  // ---------------------------------------------------------------------
  // PEM blocks

  /** The text `toPem` writes for a block: begin line, `encoding.toPem`, end line. */
  function PemFile(begin: string, data: seq<byte>, end: string): string {
    (begin + "\n") + ToPem(data) + (end + "\n")
  }

  lemma {:induction false} TerminatedBase64(lines: seq<string>)
    requires forall k :: 0 <= k < |lines| ==> IsBase64Text(lines[k])
    ensures IsLatin1(Terminated(lines))
    decreases |lines|
  {
    if lines != [] {
      TerminatedBase64(lines[1..]);
      var l := lines[0];
      assert IsBase64Text(l);
      var t := Terminated(lines);
      assert t == l + "\n" + Terminated(lines[1..]);
      forall i | 0 <= i < |t| ensures t[i] as int < 256 {
        if i < |l| {
          assert t[i] == l[i];
          assert IsSymbol(l[i]) || l[i] == '=';
        } else if i > |l| {
          assert t[i] == Terminated(lines[1..])[i - |l| - 1];
        }
      }
    }
  }

  /** `toPem(data)` is ASCII text. */
  lemma ToPemLatin1(data: seq<byte>)
    ensures IsLatin1(ToPem(data))
  {
    ToPemLines(data);
    PemLinesSymbols(data);
    TerminatedBase64(PemLines(data));
  }

  lemma CsrMarkersLatin1()
    ensures IsLatin1(CSR_BEGIN) && IsLatin1(CSR_END)
  {
  }

  lemma CertMarkersLatin1()
    ensures IsLatin1(CERT_BEGIN) && IsLatin1(CERT_END)
  {
  }

  lemma PemFileLatin1(begin: string, data: seq<byte>, end: string)
    requires IsLatin1(begin) && IsLatin1(end)
    ensures IsLatin1(begin + "\n") && IsLatin1(ToPem(data)) && IsLatin1(end + "\n")
    ensures IsLatin1(PemFile(begin, data, end))
    ensures Octets(PemFile(begin, data, end)) == Octets(begin + "\n") + Octets(ToPem(data)) + Octets(end + "\n")
  {
    assert IsLatin1("\n");
    Latin1Concat(begin, "\n");
    Latin1Concat(end, "\n");
    ToPemLatin1(data);
    OctetsConcat(begin + "\n", ToPem(data));
    OctetsConcat(begin + "\n" + ToPem(data), end + "\n");
  }

  /** The bytes of a PEM block. */
  function PemBytes(begin: string, data: seq<byte>, end: string): seq<byte>
    requires IsLatin1(begin) && IsLatin1(end)
  {
    PemFileLatin1(begin, data, end);
    Octets(PemFile(begin, data, end))
  }

  /** Reading back the bytes of a PEM block gives the data it was written from. */
  lemma PemFileReads(begin: string, data: seq<byte>, end: string)
    requires IsMarker(begin) && IsMarker(end) && begin != end
    requires IsLatin1(begin) && IsLatin1(end)
    ensures PemScan(ReadLines(Latin1(PemBytes(begin, data, end))), begin, end, "") == Ok(Some(data))
  {
    PemFileLatin1(begin, data, end);
    Latin1Octets(PemFile(begin, data, end));
    assert PemFile(begin, data, end) == begin + "\n" + ToPem(data) + end + "\n";
    PemRoundTrip(data, begin, end);
  }

  /** What a PEM load stores: `fromPem` over the lines of the stream. */
  method ReadPem(content: seq<byte>, begin: string, end: string) returns (r: Result<Option<seq<byte>>>)
    ensures r == PemScan(ReadLines(Latin1(content)), begin, end, "")
  {
    r := FromPem(ReadLines(Latin1(content)), begin, end);
  }

  // ---------------------------------------------------------------------
  // CertificateSigningRequest

  class CertificateSigningRequest {
    /** `__data`: None until loaded. */
    var data: Option<seq<byte>>

    constructor()
      ensures data == None
    {
      data := None;
    }

    /** `valid()`: data has been loaded and is not empty. */
    predicate Valid()
      reads this
    {
      data.Some? && |data.value| > 0
    }

    /** `getJwsFormat()`: "" without data, else the unpadded URL-safe base64
        of the DER bytes, which the server decodes back to those bytes. */
    function GetJwsFormat(): (s: string)
      reads this
      ensures s == "" <==> !Valid()
      ensures Valid() ==> JwsBase64Decode(s) == Some(data.value)
      ensures forall i :: 0 <= i < |s| ==> IsUrlSymbol(s[i])
    {
      if data.None? || |data.value| == 0 then ""
      else
        JwsAlphabet(data.value);
        JwsRoundTrip(data.value);
        DataToJwsBase64(data.value)
    }

    /** `load(fp, fmt)`: PEM stores whatever `fromPem` returns, even None;
        DER stores the bytes; any other format raises. A `fromPem` that
        raises leaves the data as it was. */
    method Load(content: seq<byte>, fmt: string) returns (r: Result<bool>)
      modifies this
      ensures fmt == "PEM" ==>
        var scan := PemScan(ReadLines(Latin1(content)), CSR_BEGIN, CSR_END, "");
        if scan.Ok? then r == Ok(true) && data == scan.value
        else r == Err(scan.error) && data == old(data)
      ensures fmt == "DER" ==> r == Ok(true) && data == Some(content)
      ensures fmt != "PEM" && fmt != "DER" ==> r == Err(UnknownFormat(fmt)) && data == old(data)
    {
      if fmt == "PEM" {
        var scan := ReadPem(content, CSR_BEGIN, CSR_END);
        if scan.Err? {
          return Err(scan.error);
        }
        data := scan.value;
        return Ok(true);
      }
      if fmt == "DER" {
        data := Some(content);
        return Ok(true);
      }
      return Err(UnknownFormat(fmt));
    }

    /** `toPem(fp)`: the begin line is written first; without data the
        base64 encoding raises before anything else is written. */
    method ToPem(fp: OutStream) returns (r: Result<()>)
      modifies fp
      ensures data.Some? ==> (r == Ok(()) &&
        fp.written == old(fp.written) + PemBytes(CSR_BEGIN, data.value, CSR_END))
      ensures data.None? ==> (r == Err(TypeError) &&
        fp.written == old(fp.written) + Octets(CSR_BEGIN + "\n"))
    {
      CsrMarkersLatin1();
      var before := fp.written;
      fp.Write(CSR_BEGIN + "\n");
      if data.None? {
        return Err(TypeError);
      }
      ToPemLatin1(data.value);
      fp.Write(Encoding.ToPem(data.value));
      fp.Write(CSR_END + "\n");
      PemFileLatin1(CSR_BEGIN, data.value, CSR_END);
      AppendThree(before, Octets(CSR_BEGIN + "\n"), Octets(Encoding.ToPem(data.value)), Octets(CSR_END + "\n"));
      return Ok(());
    }
  }

  lemma AppendThree(w: seq<byte>, a: seq<byte>, b: seq<byte>, c: seq<byte>)
    ensures w + a + b + c == w + (a + b + c)
  {
  }

  /** A CSR written with `toPem` and loaded back in PEM format has the same data. */
  lemma CsrPemRoundTrip(data: seq<byte>)
    ensures PemScan(ReadLines(Latin1(PemBytes(CSR_BEGIN, data, CSR_END))), CSR_BEGIN, CSR_END, "") == Ok(Some(data))
  {
    CsrMarkers();
    CsrMarkersLatin1();
    PemFileReads(CSR_BEGIN, data, CSR_END);
  }

  // ---------------------------------------------------------------------
  // Certificate

  class Certificate {
    /** `__data`: None until loaded. */
    var data: Option<seq<byte>>

    constructor()
      ensures data == None
    {
      data := None;
    }

    /** `load(fp, fmt)`: like the CSR's, except that a PEM load checks the
        result: no end marker gives `len(None)`, a TypeError after None has
        been stored, and an empty block is rejected after it has been stored. */
    method Load(content: seq<byte>, fmt: string) returns (r: Result<bool>)
      modifies this
      ensures fmt == "PEM" ==>
        var scan := PemScan(ReadLines(Latin1(content)), CERT_BEGIN, CERT_END, "");
        if scan.Err? then r == Err(scan.error) && data == old(data)
        else (data == scan.value &&
              r == (if scan.value.None? then Err(TypeError)
                    else if scan.value.value == [] then Err(EmptyPem)
                    else Ok(true)))
      ensures fmt == "DER" ==> r == Ok(true) && data == Some(content)
      ensures fmt != "PEM" && fmt != "DER" ==> r == Err(UnknownFormat(fmt)) && data == old(data)
    {
      if fmt == "PEM" {
        var scan := ReadPem(content, CERT_BEGIN, CERT_END);
        if scan.Err? {
          return Err(scan.error);
        }
        data := scan.value;
        if data.None? {
          return Err(TypeError);
        }
        if |data.value| == 0 {
          return Err(EmptyPem);
        }
        return Ok(true);
      }
      if fmt == "DER" {
        data := Some(content);
        return Ok(true);
      }
      return Err(UnknownFormat(fmt));
    }

    /** `toPem(fp)`, as for the CSR with the certificate markers. */
    method ToPem(fp: OutStream) returns (r: Result<()>)
      modifies fp
      ensures data.Some? ==> (r == Ok(()) &&
        fp.written == old(fp.written) + PemBytes(CERT_BEGIN, data.value, CERT_END))
      ensures data.None? ==> (r == Err(TypeError) &&
        fp.written == old(fp.written) + Octets(CERT_BEGIN + "\n"))
    {
      CertMarkersLatin1();
      var before := fp.written;
      fp.Write(CERT_BEGIN + "\n");
      if data.None? {
        return Err(TypeError);
      }
      ToPemLatin1(data.value);
      fp.Write(Encoding.ToPem(data.value));
      fp.Write(CERT_END + "\n");
      PemFileLatin1(CERT_BEGIN, data.value, CERT_END);
      AppendThree(before, Octets(CERT_BEGIN + "\n"), Octets(Encoding.ToPem(data.value)), Octets(CERT_END + "\n"));
      return Ok(());
    }
  }

  /** A certificate written with `toPem` and loaded back in PEM format has
      the same data; only an empty certificate is refused. */
  lemma CertificatePemRoundTrip(data: seq<byte>)
    ensures PemScan(ReadLines(Latin1(PemBytes(CERT_BEGIN, data, CERT_END))), CERT_BEGIN, CERT_END, "") == Ok(Some(data))
  {
    CertMarkers();
    CertMarkersLatin1();
    PemFileReads(CERT_BEGIN, data, CERT_END);
  }

  // ---------------------------------------------------------------------
  // RsaKeyPair

  /** An RSA key: modulus, public and private exponent. */
  datatype RsaKey = RsaKey(n: nat, e: nat, d: nat)

  /** The foreign functions the key pair relies on: `RSA.importKey` (None
      when it raises), `sha256(..).digest()`, `jws.utils.encode` and
      `jws.sign`. */
  datatype Crypto = Crypto(
    importKey: seq<byte> -> Option<RsaKey>,
    sha256: seq<byte> -> seq<byte>,
    encode: Json -> string,
    sign: (Json, Json, RsaKey) -> string)

  predicate NoDot(s: string) {
    forall i :: 0 <= i < |s| ==> s[i] != '.'
  }

  /** What the libraries guarantee: a SHA-256 digest is 32 bytes, and JWS
      encodings and signatures are base64url text, so they hold no dot. */
  ghost predicate WellBehaved(c: Crypto) {
    (forall m :: |c.sha256(m)| == 32) &&
    (forall j :: NoDot(c.encode(j))) &&
    (forall h, p, k :: NoDot(c.sign(h, p, k)))
  }

  /** The JWK of a public key: exactly `e`, `kty` and `n`. */
  function Jwk(k: RsaKey): Json {
    JObj(map["e" := JStr(NumberToBase64(k.e)), "kty" := JStr("RSA"), "n" := JStr(NumberToBase64(k.n))])
  }

  /** The JWK members `e` and `n` decode to the minimal big-endian bytes of
      the exponent and the modulus. */
  lemma JwkDecodes(k: RsaKey)
    ensures Jwk(k).fields.Keys == {"e", "kty", "n"}
    ensures Jwk(k).fields["kty"] == JStr("RSA")
    ensures JwsBase64Decode(Jwk(k).fields["e"].s) == Some(NumberBytes(k.e))
    ensures JwsBase64Decode(Jwk(k).fields["n"].s) == Some(NumberBytes(k.n))
    ensures BigEndian(NumberBytes(k.e)) == k.e && BigEndian(NumberBytes(k.n)) == k.n
  {
    JwsRoundTrip(NumberBytes(k.e));
    JwsRoundTrip(NumberBytes(k.n));
    NumberBytesMinimal(k.e);
    NumberBytesMinimal(k.n);
  }

  /** `numberToBase64` is injective. */
  lemma NumberToBase64Injective(x: nat, y: nat)
    requires NumberToBase64(x) == NumberToBase64(y)
    ensures x == y
  {
    JwsRoundTrip(NumberBytes(x));
    JwsRoundTrip(NumberBytes(y));
    NumberBytesMinimal(x);
    NumberBytesMinimal(y);
  }

  const JWK_OPEN := "{\"e\":\""
  const JWK_MIDDLE := "\",\"kty\":\"RSA\",\"n\":\""
  const JWK_CLOSE := "\"}"

  /** `json.dumps(jwk, sort_keys=True, separators=(',', ':'))` for a JWK
      whose members are base64url text (nothing to escape). */
  function CondensedJwk(e: string, n: string): string {
    JWK_OPEN + e + JWK_MIDDLE + n + JWK_CLOSE
  }

  predicate IsUrlText(s: string) {
    forall i :: 0 <= i < |s| ==> IsUrlSymbol(s[i])
  }

  /** In the condensed JWK the first quote after the opening is the one
      that closes `e`. */
  lemma ClosingQuote(e: string, n: string)
    requires IsUrlText(e)
    ensures var c := CondensedJwk(e, n);
      |JWK_OPEN| <= |c| && IndexOf(c[|JWK_OPEN|..], '"') == |e|
  {
    var c := CondensedJwk(e, n);
    var t := c[|JWK_OPEN|..];
    assert t == e + JWK_MIDDLE + n + JWK_CLOSE;
    assert t[|e|] == '"';
    forall j | 0 <= j < |e| ensures t[j] != '"' {
      assert t[j] == e[j];
    }
  }

  /** Different JWK members give different thumbprint inputs. */
  lemma CondensedJwkInjective(e1: string, n1: string, e2: string, n2: string)
    requires IsUrlText(e1) && IsUrlText(n1) && IsUrlText(e2) && IsUrlText(n2)
    requires CondensedJwk(e1, n1) == CondensedJwk(e2, n2)
    ensures e1 == e2 && n1 == n2
  {
    var c := CondensedJwk(e1, n1);
    var o := |JWK_OPEN|;
    ClosingQuote(e1, n1);
    ClosingQuote(e2, n2);
    assert |e1| == |e2|;
    assert e1 == c[o..o + |e1|] == e2;
    var m := o + |e1| + |JWK_MIDDLE|;
    assert |n1| == |n2|;
    assert n1 == c[m..m + |n1|] == n2;
  }

  /** Thumbprint input of a public key: byte text, so hashing it is
      defined. */
  function ThumbprintInput(k: RsaKey): (s: string)
    ensures IsLatin1(s)
  {
    UrlText(k.e); UrlText(k.n);
    CondensedJwkLatin1(NumberToBase64(k.e), NumberToBase64(k.n));
    CondensedJwk(NumberToBase64(k.e), NumberToBase64(k.n))
  }

  lemma CondensedJwkLatin1(e: string, n: string)
    requires IsUrlText(e) && IsUrlText(n)
    ensures IsLatin1(CondensedJwk(e, n))
  {
    UrlTextLatin1(e); UrlTextLatin1(n);
    assert IsLatin1(JWK_OPEN) && IsLatin1(JWK_MIDDLE) && IsLatin1(JWK_CLOSE);
    Latin1Concat(JWK_OPEN, e);
    Latin1Concat(JWK_OPEN + e, JWK_MIDDLE);
    Latin1Concat(JWK_OPEN + e + JWK_MIDDLE, n);
    Latin1Concat(JWK_OPEN + e + JWK_MIDDLE + n, JWK_CLOSE);
  }

  /** Section 3 of RFC 7638: keys with different public parts have
      different thumbprint inputs. */
  lemma ThumbprintInputInjective(k1: RsaKey, k2: RsaKey)
    requires ThumbprintInput(k1) == ThumbprintInput(k2)
    ensures k1.e == k2.e && k1.n == k2.n
  {
    UrlText(k1.e); UrlText(k1.n); UrlText(k2.e); UrlText(k2.n);
    CondensedJwkInjective(NumberToBase64(k1.e), NumberToBase64(k1.n), NumberToBase64(k2.e), NumberToBase64(k2.n));
    NumberToBase64Injective(k1.e, k2.e);
    NumberToBase64Injective(k1.n, k2.n);
  }

  lemma UrlText(x: nat)
    ensures IsUrlText(NumberToBase64(x))
  {
    JwsAlphabet(NumberBytes(x));
  }

  lemma UrlTextLatin1(s: string)
    requires IsUrlText(s)
    ensures IsLatin1(s)
  {
    forall i | 0 <= i < |s| ensures s[i] as int < 256 {
      assert IsUrlSymbol(s[i]);
    }
  }

  /** The protected header of a request: `typ`, `alg` and `jwk`, and `nonce`
      exactly when one is given. */
  function JwsHeader(jwk: Json, nonce: Option<string>): (h: Json)
    ensures h.JObj?
    ensures "nonce" in h.fields <==> nonce.Some?
    ensures nonce.Some? ==> h.fields["nonce"] == JStr(nonce.value)
    ensures h.fields.Keys - {"nonce"} == {"typ", "alg", "jwk"}
    ensures h.fields["typ"] == JStr("JWT") && h.fields["alg"] == JStr("RS256") && h.fields["jwk"] == jwk
  {
    var base := map["typ" := JStr("JWT"), "alg" := JStr("RS256"), "jwk" := jwk];
    if nonce.Some? then JObj(base["nonce" := JStr(nonce.value)]) else JObj(base)
  }

  /** Index of the first `c` in `s`, or `|s|`. */
  function IndexOf(s: string, c: char): (k: nat)
    ensures k <= |s| && (k < |s| ==> s[k] == c)
    ensures forall j :: 0 <= j < k ==> s[j] != c
    decreases |s|
  {
    if s == [] || s[0] == c then 0 else 1 + IndexOf(s[1..], c)
  }

  /** `s.split(c)`. */
  function SplitOn(s: string, c: char): (parts: seq<string>)
    ensures parts != []
    decreases |s|
  {
    var k := IndexOf(s, c);
    if k == |s| then [s] else [s[..k]] + SplitOn(s[k + 1..], c)
  }

  lemma {:induction false} SplitJoin(parts: seq<string>, c: char)
    requires parts != []
    requires forall k, i :: 0 <= k < |parts| && 0 <= i < |parts[k]| ==> parts[k][i] != c
    ensures SplitOn(Join(parts, [c]), c) == parts
    decreases |parts|
  {
    var p := parts[0];
    if |parts| == 1 {
      assert IndexOf(p, c) == |p|;
    } else {
      var rest := Join(parts[1..], [c]);
      var s := p + [c] + rest;
      assert Join(parts, [c]) == s;
      assert s[|p|] == c;
      assert forall j :: 0 <= j < |p| ==> s[j] == p[j];
      assert IndexOf(s, c) == |p|;
      assert s[..|p|] == p && s[|p| + 1..] == rest;
      SplitJoin(parts[1..], c);
    }
  }

  class RsaKeyPair {
    /** `__key`: None until loaded. */
    var key: Option<RsaKey>

    constructor()
      ensures key == None
    {
      key := None;
    }

    /** `load(fp)`: the key `RSA.importKey` reads; when it raises, the key
        is left as it was. */
    method Load(content: seq<byte>, crypto: Crypto) returns (r: Result<()>)
      modifies this
      ensures crypto.importKey(content).Some? ==> r == Ok(()) && key == crypto.importKey(content)
      ensures crypto.importKey(content).None? ==> r == Err(ValueError) && key == old(key)
    {
      var k := crypto.importKey(content);
      if k.None? {
        return Err(ValueError);
      }
      key := k;
      return Ok(());
    }

    /** `getJwk()`: the JWK of the public key; reading the key of an
        unloaded pair raises. */
    function GetJwk(): (r: Result<Json>)
      reads this
      ensures r.Ok? <==> key.Some?
      ensures r.Ok? ==> r.value.JObj? && r.value.fields.Keys == {"e", "kty", "n"}
      ensures r.Ok? ==> r.value.fields["kty"] == JStr("RSA")
      ensures r.Ok? ==> (r.value.fields["n"].JStr? &&
        JwsBase64Decode(r.value.fields["n"].s) == Some(NumberBytes(key.value.n)))
      ensures r.Ok? ==> (r.value.fields["e"].JStr? &&
        JwsBase64Decode(r.value.fields["e"].s) == Some(NumberBytes(key.value.e)))
    {
      if key.None? then Err(AttributeError("publickey"))
      else
        JwkDecodes(key.value);
        Ok(Jwk(key.value))
    }

    /** `getJwkThumbprint()`: unpadded base64url of the SHA-256 digest of the
        condensed JWK, 43 characters of the URL-safe alphabet. */
    function GetJwkThumbprint(crypto: Crypto): (r: Result<string>)
      reads this
      ensures r.Ok? <==> key.Some?
      ensures r.Ok? && WellBehaved(crypto) ==> |r.value| == 43 && IsUrlText(r.value)
      ensures r.Ok? ==> JwsBase64Decode(r.value) == Some(crypto.sha256(Octets(ThumbprintInput(key.value))))
    {
      if key.None? then Err(AttributeError("publickey"))
      else
        ThumbprintDecodes(key.value, crypto);
        Ok(Thumbprint(key.value, crypto))
    }

    /** `signJsonArray(postArr, nonce)`: encoded header, encoded payload and
        signature joined by dots. */
    function SignJsonArray(post: Json, nonce: Option<string>, crypto: Crypto): (r: Result<string>)
      reads this
      ensures r.Ok? <==> key.Some?
      ensures r.Ok? && WellBehaved(crypto) ==>
        var h := JwsHeader(Jwk(key.value), nonce);
        SplitOn(r.value, '.') == [crypto.encode(h), crypto.encode(post), crypto.sign(h, post, key.value)]
    {
      if key.None? then Err(AttributeError("publickey"))
      else
        SignedSplits(key.value, post, nonce, crypto);
        Ok(Signed(key.value, post, nonce, crypto))
    }
  }

  /** The thumbprint of a loaded key. */
  function Thumbprint(k: RsaKey, crypto: Crypto): string {
    DataToJwsBase64(crypto.sha256(Octets(ThumbprintInput(k))))
  }

  /** Section 3 of RFC 7638: the thumbprint is the unpadded base64url text
      of the SHA-256 digest of the thumbprint input; it decodes back to that
      digest and, for a 32-byte digest, is 43 URL-safe characters. */
  lemma ThumbprintDecodes(k: RsaKey, crypto: Crypto)
    ensures var t := Thumbprint(k, crypto);
      JwsBase64Decode(t) == Some(crypto.sha256(Octets(ThumbprintInput(k)))) &&
      (WellBehaved(crypto) ==> |t| == 43 && IsUrlText(t))
  {
    var digest := crypto.sha256(Octets(ThumbprintInput(k)));
    JwsAlphabet(digest);
    JwsRoundTrip(digest);
  }

  /** The compact JWS of `post` signed with a loaded key. */
  function Signed(k: RsaKey, post: Json, nonce: Option<string>, crypto: Crypto): string {
    var h := JwsHeader(Jwk(k), nonce);
    crypto.encode(h) + "." + crypto.encode(post) + "." + crypto.sign(h, post, k)
  }

  /** With dot-free encodings, the JWS splits back into its three parts. */
  lemma SignedSplits(k: RsaKey, post: Json, nonce: Option<string>, crypto: Crypto)
    ensures WellBehaved(crypto) ==>
      var h := JwsHeader(Jwk(k), nonce);
      SplitOn(Signed(k, post, nonce, crypto), '.') == [crypto.encode(h), crypto.encode(post), crypto.sign(h, post, k)]
  {
    var h := JwsHeader(Jwk(k), nonce);
    DotJoinedParts(crypto, crypto.encode(h), crypto.encode(post), crypto.sign(h, post, k));
  }

  lemma DotJoinedParts(crypto: Crypto, a: string, b: string, c: string)
    requires WellBehaved(crypto) ==> NoDot(a) && NoDot(b) && NoDot(c)
    ensures WellBehaved(crypto) ==> SplitOn(a + "." + b + "." + c, '.') == [a, b, c]
  {
    if WellBehaved(crypto) {
      var parts := [a, b, c];
      assert Join(parts, ".") == a + "." + b + "." + c by {
        assert parts[1..][1..] == [c];
        assert Join(parts[1..], ".") == b + "." + c;
      }
      SplitJoin(parts, '.');
    }
  }
}
