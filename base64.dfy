/**
 * The base64 codec of section 4 of RFC 4648 as Python's `b64encode` and
 * `b64decode` apply it, and the URL-safe alphabet of section 5 as
 * `urlsafe_b64encode` derives it (by translating '+' and '/').
 *
 * Encoding works on groups of three bytes, each giving four symbols of six
 * bits; a final group of one or two bytes gives two or three symbols and is
 * padded with '=' to four.
 */
module Base64 {
  import opened Common

  /** Symbol of a six-bit value in the standard alphabet. */
  function Symbol(v: int): (c: char)
    requires 0 <= v < 64
  {
    if v < 26 then ('A' as int + v) as char
    else if v < 52 then ('a' as int + v - 26) as char
    else if v < 62 then ('0' as int + v - 52) as char
    else if v == 62 then '+'
    else '/'
  }

  predicate IsSymbol(c: char) {
    'A' <= c <= 'Z' || 'a' <= c <= 'z' || '0' <= c <= '9' || c == '+' || c == '/'
  }

  /** Six-bit value of a symbol of the standard alphabet. */
  function Value(c: char): (v: int)
    requires IsSymbol(c)
    ensures 0 <= v < 64 && Symbol(v) == c
  {
    if 'A' <= c <= 'Z' then c as int - 'A' as int
    else if 'a' <= c <= 'z' then c as int - 'a' as int + 26
    else if '0' <= c <= '9' then c as int - '0' as int + 52
    else if c == '+' then 62
    else 63
  }

  lemma ValueOfSymbol(v: int)
    requires 0 <= v < 64
    ensures IsSymbol(Symbol(v)) && Value(Symbol(v)) == v
  {
  }

  /** The four symbols of a full group of three bytes. */
  function Quad(b0: byte, b1: byte, b2: byte): (q: string)
    ensures |q| == 4
  {
    [Symbol(b0 / 4), Symbol(b0 % 4 * 16 + b1 / 16), Symbol(b1 % 16 * 4 + b2 / 64), Symbol(b2 % 64)]
  }

  /** The symbols of `d` without the trailing padding. */
  function Unpadded(d: seq<byte>): (s: string)
    decreases |d|
  {
    if |d| == 0 then ""
    else if |d| == 1 then [Symbol(d[0] / 4), Symbol(d[0] % 4 * 16)]
    else if |d| == 2 then [Symbol(d[0] / 4), Symbol(d[0] % 4 * 16 + d[1] / 16), Symbol(d[1] % 16 * 4)]
    else Quad(d[0], d[1], d[2]) + Unpadded(d[3..])
  }

  /** The '=' characters that complete the last group of `n` bytes. */
  function Padding(n: nat): (p: string)
    ensures |p| == (3 - n % 3) % 3
  {
    Repeat('=', (3 - n % 3) % 3)
  }

  /** Python's `b64encode(d)`. */
  function Encode(d: seq<byte>): string {
    Unpadded(d) + Padding(|d|)
  }

  lemma {:induction false} UnpaddedShape(d: seq<byte>)
    ensures |Unpadded(d)| == (4 * |d| + 2) / 3
    ensures forall i :: 0 <= i < |Unpadded(d)| ==> IsSymbol(Unpadded(d)[i])
    decreases |d|
  {
    if |d| >= 3 {
      UnpaddedShape(d[3..]);
      var q := Quad(d[0], d[1], d[2]);
      forall i | 0 <= i < 4 ensures IsSymbol(q[i]) {
        assert q[i] == Symbol(if i == 0 then d[0] / 4 else if i == 1 then d[0] % 4 * 16 + d[1] / 16
                              else if i == 2 then d[1] % 16 * 4 + d[2] / 64 else d[2] % 64);
      }
    }
  }

  /** The symbols and the padding of `n` bytes fill whole groups of four. */
  lemma PaddedLength(n: nat)
    ensures (4 * n + 2) / 3 + (3 - n % 3) % 3 == 4 * ((n + 2) / 3)
    ensures (4 * ((n + 2) / 3)) % 4 == 0
  {
    var k, r := n / 3, n % 3;
    assert n == 3 * k + r;
    if r == 0 {
      assert (4 * n + 2) / 3 == 4 * k && (n + 2) / 3 == k;
    } else if r == 1 {
      assert (4 * n + 2) / 3 == 4 * k + 2 && (n + 2) / 3 == k + 1;
    } else {
      assert (4 * n + 2) / 3 == 4 * k + 3 && (n + 2) / 3 == k + 1;
    }
  }

  /** The encoding is a whole number of four-symbol groups: symbols of the
      standard alphabet followed by at most two '='. */
  lemma EncodeShape(d: seq<byte>)
    ensures |Encode(d)| == 4 * ((|d| + 2) / 3)
    ensures |Encode(d)| % 4 == 0
    ensures forall i :: 0 <= i < |Encode(d)| ==>
      (IsSymbol(Encode(d)[i]) <==> i < (4 * |d| + 2) / 3)
    ensures forall i :: (4 * |d| + 2) / 3 <= i < |Encode(d)| ==> Encode(d)[i] == '='
  {
    UnpaddedShape(d);
    PaddedLength(|d|);
    var u := Unpadded(d);
    var e := Encode(d);
    forall i | 0 <= i < |e| ensures IsSymbol(e[i]) <==> i < |u| {
      if i >= |u| { assert e[i] == Padding(|d|)[i - |u|]; }
    }
  }

  /** Decoding of the last group, which may end in padding. Non-zero bits
      left over by a short group are dropped, as Python does. */
  function DecodeLast(q: string): (r: Option<seq<byte>>)
    requires |q| == 4
  {
    if IsSymbol(q[0]) && IsSymbol(q[1]) && IsSymbol(q[2]) && IsSymbol(q[3]) then
      Some(Triple(Value(q[0]), Value(q[1]), Value(q[2]), Value(q[3])))
    else if IsSymbol(q[0]) && IsSymbol(q[1]) && q[2] == '=' && q[3] == '=' then
      Some([Value(q[0]) * 4 + Value(q[1]) / 16])
    else if IsSymbol(q[0]) && IsSymbol(q[1]) && IsSymbol(q[2]) && q[3] == '=' then
      Some([Value(q[0]) * 4 + Value(q[1]) / 16, Value(q[1]) % 16 * 16 + Value(q[2]) / 4])
    else None
  }

  /** The three bytes of four six-bit values. */
  function Triple(v0: int, v1: int, v2: int, v3: int): (b: seq<byte>)
    requires 0 <= v0 < 64 && 0 <= v1 < 64 && 0 <= v2 < 64 && 0 <= v3 < 64
    ensures |b| == 3
  {
    [v0 * 4 + v1 / 16, v1 % 16 * 16 + v2 / 4, v2 % 4 * 64 + v3]
  }

  function DecodeGroups(s: string): (r: Option<seq<byte>>)
    decreases |s|
  {
    if s == [] then Some([])
    else if |s| < 4 then None
    else if |s| == 4 then DecodeLast(s)
    else if IsSymbol(s[0]) && IsSymbol(s[1]) && IsSymbol(s[2]) && IsSymbol(s[3]) then
      match DecodeGroups(s[4..])
      case Some(rest) => Some(Triple(Value(s[0]), Value(s[1]), Value(s[2]), Value(s[3])) + rest)
      case None => None
    else None
  }

  /** Python's `b64decode(s)` for text made of symbols and padding; a
      trailing incomplete group is `Incorrect padding`. */
  function Decode(s: string): (r: Option<seq<byte>>) {
    DecodeGroups(s)
  }

  lemma QuadDecodes(b0: byte, b1: byte, b2: byte)
    ensures var q := Quad(b0, b1, b2);
      IsSymbol(q[0]) && IsSymbol(q[1]) && IsSymbol(q[2]) && IsSymbol(q[3]) &&
      Triple(Value(q[0]), Value(q[1]), Value(q[2]), Value(q[3])) == [b0, b1, b2]
  {
    var v0, v1, v2, v3 := b0 / 4, b0 % 4 * 16 + b1 / 16, b1 % 16 * 4 + b2 / 64, b2 % 64;
    ValueOfSymbol(v0); ValueOfSymbol(v1); ValueOfSymbol(v2); ValueOfSymbol(v3);
    assert v1 / 16 == b0 % 4 && v1 % 16 == b1 / 16;
    assert v2 / 4 == b1 % 16 && v2 % 4 == b2 / 64;
  }

  lemma DecodeEncodeOne(d: seq<byte>)
    requires |d| == 1
    ensures Decode(Encode(d)) == Some(d)
  {
    var v0, v1 := d[0] / 4, d[0] % 4 * 16;
    ValueOfSymbol(v0); ValueOfSymbol(v1);
    var e := Encode(d);
    assert e == [Symbol(v0), Symbol(v1), '=', '='];
    assert v1 / 16 == d[0] % 4;
    assert !IsSymbol(e[2]);
    assert DecodeLast(e) == Some([v0 * 4 + v1 / 16]);
    assert d == [d[0]];
  }

  lemma DecodeEncodeTwo(d: seq<byte>)
    requires |d| == 2
    ensures Decode(Encode(d)) == Some(d)
  {
    var v0, v1, v2 := d[0] / 4, d[0] % 4 * 16 + d[1] / 16, d[1] % 16 * 4;
    ValueOfSymbol(v0); ValueOfSymbol(v1); ValueOfSymbol(v2);
    var e := Encode(d);
    assert v1 / 16 == d[0] % 4 && v1 % 16 == d[1] / 16;
    assert e == [Symbol(v0), Symbol(v1), Symbol(v2), '='];
    assert !IsSymbol(e[3]);
    assert DecodeLast(e) == Some([v0 * 4 + v1 / 16, v1 % 16 * 16 + v2 / 4]);
    assert d == [d[0], d[1]];
  }

  /** A full group of three bytes contributes its four symbols in front. */
  lemma EncodeGroup(d: seq<byte>)
    requires |d| >= 3
    ensures Encode(d) == Quad(d[0], d[1], d[2]) + Encode(d[3..])
  {
    assert Padding(|d|) == Padding(|d| - 3);
  }

  lemma EncodeEmpty(d: seq<byte>)
    ensures Encode(d) == [] <==> d == []
  {
    UnpaddedShape(d);
  }

  /** Decoding a full group in front of further groups. */
  lemma DecodeGroupsCons(q: string, s: string)
    requires |q| == 4 && IsSymbol(q[0]) && IsSymbol(q[1]) && IsSymbol(q[2]) && IsSymbol(q[3])
    ensures DecodeGroups(q + s) ==
      if s == [] then Some(Triple(Value(q[0]), Value(q[1]), Value(q[2]), Value(q[3])))
      else match DecodeGroups(s)
        case Some(rest) => Some(Triple(Value(q[0]), Value(q[1]), Value(q[2]), Value(q[3])) + rest)
        case None => None
  {
    if s == [] {
      assert q + s == q;
    } else {
      assert (q + s)[4..] == s;
    }
  }

  lemma SplitThree(d: seq<byte>)
    requires |d| >= 3
    ensures d == [d[0], d[1], d[2]] + d[3..]
  {
    assert d[..3] == [d[0], d[1], d[2]];
    assert d == d[..3] + d[3..];
  }

  /** A decodable full group in front of decodable text. */
  lemma DecodeCons(q: string, e: string, t: seq<byte>, rest: seq<byte>)
    requires |q| == 4 && IsSymbol(q[0]) && IsSymbol(q[1]) && IsSymbol(q[2]) && IsSymbol(q[3])
    requires Triple(Value(q[0]), Value(q[1]), Value(q[2]), Value(q[3])) == t
    requires e == [] ==> rest == []
    requires e != [] ==> DecodeGroups(e) == Some(rest)
    ensures DecodeGroups(q + e) == Some(t + rest)
  {
    DecodeGroupsCons(q, e);
    if e == [] {
      assert t + rest == t;
    }
  }

  /** The induction step of the round trip: one more full group in front. */
  lemma DecodeEncodeStep(d: seq<byte>)
    requires |d| >= 3
    requires d[3..] != [] ==> Decode(Encode(d[3..])) == Some(d[3..])
    ensures Decode(Encode(d)) == Some(d)
  {
    var rest := d[3..];
    var q, e := Quad(d[0], d[1], d[2]), Encode(rest);
    EncodeGroup(d);
    EncodeEmpty(rest);
    QuadDecodes(d[0], d[1], d[2]);
    SplitThree(d);
    DecodeCons(q, e, [d[0], d[1], d[2]], rest);
  }

  /** Round trip: `b64decode(b64encode(d)) == d`. */
  lemma {:induction false} DecodeEncode(d: seq<byte>)
    ensures Decode(Encode(d)) == Some(d)
    decreases |d|
  {
    if |d| == 1 {
      DecodeEncodeOne(d);
    } else if |d| == 2 {
      DecodeEncodeTwo(d);
    } else if |d| >= 3 {
      if d[3..] != [] {
        DecodeEncode(d[3..]);
      }
      DecodeEncodeStep(d);
    }
  }

  /** Replaces every `a` by `a'` and every `b` by `b'`, leaving the other
      characters alone. */
  function Translate(s: string, a: char, a': char, b: char, b': char): (r: string)
    ensures |r| == |s|
    ensures forall i :: 0 <= i < |s| ==>
      r[i] == (if s[i] == a then a' else if s[i] == b then b' else s[i])
  {
    if s == [] then ""
    else [if s[0] == a then a' else if s[0] == b then b' else s[0]] + Translate(s[1..], a, a', b, b')
  }

  /** Section 5 of RFC 4648: the URL-safe alphabet replaces '+' and '/'. */
  function UrlSafe(s: string): string {
    Translate(s, '+', '-', '/', '_')
  }

  /** Inverse translation, back to the standard alphabet. */
  function FromUrlSafe(s: string): string {
    Translate(s, '-', '+', '_', '/')
  }

  predicate IsUrlSymbol(c: char) {
    'A' <= c <= 'Z' || 'a' <= c <= 'z' || '0' <= c <= '9' || c == '-' || c == '_'
  }

  /** Standard base64 text survives the URL-safe translation and back. */
  lemma UrlSafeInverse(u: string)
    requires forall i :: 0 <= i < |u| ==> IsSymbol(u[i])
    ensures FromUrlSafe(UrlSafe(u)) == u
  {
    var r := FromUrlSafe(UrlSafe(u));
    forall i | 0 <= i < |u| ensures r[i] == u[i] {
      assert IsSymbol(u[i]);
    }
  }
}
