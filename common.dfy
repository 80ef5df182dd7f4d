/**
 * Shared vocabulary of the model: optional values, results that carry the
 * Python exception a call raises, bytes, and the handful of `str` methods
 * (strip, lower, int(), "%d") the client relies on.
 */
module Common {

  datatype Option<+T> = None | Some(value: T)

  /** The exception kinds the modelled code can raise. */
  datatype Error =
    | KeyError(key: string)          // missing dict key
    | IndexError                     // list index out of range
    | TypeError                      // operation applied to a value of the wrong type
    | ValueError                     // unparsable JSON or integer text
    | AttributeError(name: string)   // attribute read before it was ever assigned
    | IOError                        // rejected system call (a negative sleep)
    | HttpStatus(code: int)          // `invalid server response %d`
    | MissingResource(name: string)  // `%s not found in directory`
    | UnknownFormat(fmt: string)     // `unknown format %s`
    | EmptyPem                       // `failed to import data as PEM`
    | UnknownModule(name: string)    // `unknown module name %s`
    | NoModule                       // `No module defined.`
    | DictOrder                      // keys of a non-empty dict iterated: their order is left open

  datatype Result<+T> = Ok(value: T) | Err(error: Error)

  type byte = x: int | 0 <= x < 256

  /** The characters Python's `str.strip()` removes. */
  predicate IsSpace(c: char) {
    c == ' ' || c == '\t' || c == '\n' || c == '\r' || c == 11 as char || c == 12 as char
  }

  function StripLeft(s: string): (r: string)
    decreases |s|
  {
    if s != [] && IsSpace(s[0]) then StripLeft(s[1..]) else s
  }

  function StripRight(s: string): (r: string)
    decreases |s|
  {
    if s != [] && IsSpace(s[|s| - 1]) then StripRight(s[..|s| - 1]) else s
  }

  /** Python's `s.strip()`. */
  function Strip(s: string): (r: string)
    ensures |r| <= |s|
    ensures r == [] || (!IsSpace(r[0]) && !IsSpace(r[|r| - 1]))
  {
    StripLeftShape(s);
    StripRightShape(StripLeft(s));
    StripRight(StripLeft(s))
  }

  lemma {:induction false} StripLeftShape(s: string)
    ensures var r := StripLeft(s);
      |r| <= |s| && r == s[|s| - |r|..] && (r == [] || !IsSpace(r[0])) &&
      forall i :: 0 <= i < |s| - |r| ==> IsSpace(s[i])
    decreases |s|
  {
    if s != [] && IsSpace(s[0]) {
      StripLeftShape(s[1..]);
      assert forall i :: 1 <= i < |s| ==> s[i] == s[1..][i - 1];
    }
  }

  lemma {:induction false} StripRightShape(s: string)
    ensures var r := StripRight(s);
      |r| <= |s| && r == s[..|r|] && (r == [] || !IsSpace(r[|r| - 1])) &&
      forall i :: |r| <= i < |s| ==> IsSpace(s[i])
    decreases |s|
  {
    if s != [] && IsSpace(s[|s| - 1]) {
      StripRightShape(s[..|s| - 1]);
    }
  }

  /** `strip()` keeps a slice of its input that neither starts nor ends
      with whitespace, and removes only whitespace around it. */
  lemma StripShape(s: string)
    ensures var r := Strip(s);
      (r == [] || (!IsSpace(r[0]) && !IsSpace(r[|r| - 1]))) &&
      var lo := |s| - |StripLeft(s)|;
      0 <= lo <= lo + |r| <= |s| && r == s[lo..lo + |r|] &&
        (forall i :: 0 <= i < lo ==> IsSpace(s[i])) &&
        (forall i :: lo + |r| <= i < |s| ==> IsSpace(s[i]))
  {
    var l := StripLeft(s);
    StripLeftShape(s);
    StripRightShape(l);
    var r := Strip(s);
    var lo := |s| - |l|;
    if r != [] {
      assert r[0] == l[0];
    }
    assert r == s[lo..lo + |r|];
    forall i | lo + |r| <= i < |s| ensures IsSpace(s[i]) {
      assert s[i] == l[i - lo];
    }
  }

  lemma {:induction false} StripNoSpace(s: string)
    requires forall i :: 0 <= i < |s| ==> !IsSpace(s[i])
    ensures Strip(s) == s
  {
    if s != [] {
      assert !IsSpace(s[0]) && !IsSpace(s[|s| - 1]);
    }
  }

  /** A text without whitespace at either end is left alone by `strip()`. */
  lemma StripTrimmed(s: string)
    requires s != [] && !IsSpace(s[0]) && !IsSpace(s[|s| - 1])
    ensures Strip(s) == s
  {
    assert StripLeft(s) == s;
  }

  /** Python 2 `str.lower()` on byte strings: only ASCII letters change. */
  function Lower(s: string): (r: string)
    decreases |s|
  {
    if s == [] then []
    else [if 'A' <= s[0] <= 'Z' then (s[0] as int + 32) as char else s[0]] + Lower(s[1..])
  }

  /** `lower()` maps each ASCII capital to its small letter and keeps every
      other character. */
  lemma {:induction false} LowerChars(s: string)
    ensures |Lower(s)| == |s|
    ensures forall i :: 0 <= i < |s| ==>
      Lower(s)[i] == (if 'A' <= s[i] <= 'Z' then (s[i] as int + 32) as char else s[i])
    decreases |s|
  {
    if s != [] {
      LowerChars(s[1..]);
    }
  }

  predicate IsDigit(c: char) { '0' <= c <= '9' }

  predicate AllDigits(s: string) {
    forall i :: 0 <= i < |s| ==> IsDigit(s[i])
  }

  /** Value of a non-empty run of decimal digits. */
  function DigitsValue(s: string): (n: nat)
    requires AllDigits(s)
    decreases |s|
  {
    if s == [] then 0
    else
      assert IsDigit(s[|s| - 1]);
      10 * DigitsValue(s[..|s| - 1]) + (s[|s| - 1] as int - '0' as int)
  }

  /** Python 2's `int(s)` on a text: surrounding whitespace, an optional
      sign, whitespace again (the digits are read by `strtoul`, which skips
      it), then decimal digits. */
  function ParseInt(s: string): (r: Result<int>)
    ensures r.Err? ==> r.error == ValueError
    ensures r.Ok? ==> Strip(s) != [] && (r.value < 0 ==> Strip(s)[0] == '-')
  {
    var t := Strip(s);
    var sign := if t != [] && (t[0] == '-' || t[0] == '+') then 1 else 0;
    var digits := StripLeft(t[sign..]);
    if digits == [] || !AllDigits(digits) then Err(ValueError)
    else if sign == 1 && t[0] == '-' then Ok(0 - DigitsValue(digits) as int)
    else Ok(DigitsValue(digits))
  }

  predicate AllSpace(s: string) {
    forall i :: 0 <= i < |s| ==> IsSpace(s[i])
  }

  lemma {:induction false} StripLeftSpace(ws: string, x: string)
    requires AllSpace(ws) && x != [] && !IsSpace(x[0])
    ensures StripLeft(ws + x) == x
    decreases |ws|
  {
    if ws == [] {
      assert ws + x == x;
    } else {
      assert (ws + x)[1..] == ws[1..] + x;
      StripLeftSpace(ws[1..], x);
    }
  }

  lemma {:induction false} StripRightSpace(x: string, ws: string)
    requires AllSpace(ws) && x != [] && !IsSpace(x[|x| - 1])
    ensures StripRight(x + ws) == x
    decreases |ws|
  {
    if ws == [] {
      assert x + ws == x;
    } else {
      assert (x + ws)[..|x + ws| - 1] == x + ws[..|ws| - 1];
      StripRightSpace(x, ws[..|ws| - 1]);
    }
  }

  /** `strip()` removes exactly the whitespace around a text that neither
      starts nor ends with whitespace. */
  lemma StripAround(lead: string, core: string, trail: string)
    requires AllSpace(lead) && AllSpace(trail)
    requires core != [] && !IsSpace(core[0]) && !IsSpace(core[|core| - 1])
    ensures Strip(lead + core + trail) == core
  {
    assert lead + core + trail == lead + (core + trail);
    StripLeftSpace(lead, core + trail);
    StripRightSpace(core, trail);
  }

  /** `int` accepts whitespace, an optional sign, whitespace and decimal
      digits followed by whitespace, and gives the signed value of the digits. */
  lemma ParseIntAccepts(lead: string, sign: string, gap: string, digits: string, trail: string)
    requires AllSpace(lead) && AllSpace(gap) && AllSpace(trail)
    requires sign == "" || sign == "-" || sign == "+"
    requires digits != [] && AllDigits(digits)
    ensures ParseInt(lead + sign + gap + digits + trail) ==
      Ok(if sign == "-" then 0 - DigitsValue(digits) else DigitsValue(digits))
  {
    var s := lead + sign + gap + digits + trail;
    assert !IsSpace(digits[0]) && !IsSpace(digits[|digits| - 1]);
    var t := Strip(s);
    if sign == "" {
      assert s == (lead + gap) + digits + trail;
      StripAround(lead + gap, digits, trail);
      assert t == digits && !(t[0] == '-' || t[0] == '+');
      assert t[0..] == digits;
      assert StripLeft(digits) == digits;
    } else {
      var core := sign + gap + digits;
      assert s == lead + core + trail;
      StripAround(lead, core, trail);
      assert t == core && t[0] == sign[0];
      assert t[1..] == gap + digits;
      StripLeftSpace(gap, digits);
    }
  }

  /** `int` refuses a text holding a character that is neither whitespace,
      a digit nor a sign. */
  lemma ParseIntRefuses(s: string, i: nat)
    requires i < |s| && !IsSpace(s[i]) && !IsDigit(s[i]) && s[i] != '-' && s[i] != '+'
    ensures ParseInt(s) == Err(ValueError)
  {
    StripShape(s);
    var t := Strip(s);
    var lo := |s| - |StripLeft(s)|;
    assert lo <= i < lo + |t|;
    assert t[i - lo] == s[i];
    var sign := if t != [] && (t[0] == '-' || t[0] == '+') then 1 else 0;
    assert sign <= i - lo;
    var rest := t[sign..];
    assert rest[i - lo - sign] == s[i];
    StripLeftShape(rest);
    var digits := StripLeft(rest);
    var k := i - lo - sign - (|rest| - |digits|);
    assert 0 <= k < |digits|;
    assert digits[k] == rest[i - lo - sign];
    assert !IsDigit(digits[k]);
  }

  /** Python's `"%d" % n` for a natural number. */
  function NatToString(n: nat): (s: string)
    ensures s != [] && AllDigits(s)
    decreases n
  {
    var last := [('0' as int + n % 10) as char];
    if n < 10 then last else NatToString(n / 10) + last
  }

  lemma {:induction false} NatToStringValue(n: nat)
    ensures DigitsValue(NatToString(n)) == n
    decreases n
  {
    var s := NatToString(n);
    if n >= 10 {
      NatToStringValue(n / 10);
      assert s[..|s| - 1] == NatToString(n / 10);
    }
  }

  /** `int("%d" % n) == n`: decimal printing and Python's int() are inverse. */
  lemma NatToStringParses(n: nat)
    ensures ParseInt(NatToString(n)) == Ok(n)
  {
    var s := NatToString(n);
    StripNoSpace(s);
    assert !IsSpace(s[0]) && StripLeft(s) == s;
    NatToStringValue(n);
  }

  /** Python's `sep.join(parts)`. */
  function Join(parts: seq<string>, sep: string): (r: string)
    decreases |parts|
  {
    if parts == [] then ""
    else if |parts| == 1 then parts[0]
    else parts[0] + sep + Join(parts[1..], sep)
  }

  /** Every part followed by a newline. */
  function Terminated(lines: seq<string>): (r: string)
    decreases |lines|
  {
    if lines == [] then "" else lines[0] + "\n" + Terminated(lines[1..])
  }

  lemma {:induction false} JoinTerminated(lines: seq<string>)
    requires lines != []
    ensures Join(lines, "\n") + "\n" == Terminated(lines)
    decreases |lines|
  {
    if |lines| > 1 {
      JoinTerminated(lines[1..]);
    }
  }

  /** Concatenation of a list of strings: `"".join(parts)`. */
  function Concat(parts: seq<string>): (r: string)
    decreases |parts|
  {
    if parts == [] then "" else parts[0] + Concat(parts[1..])
  }

  /** Python's `s.replace(c, "")` for a single character. */
  function Remove(s: string, c: char): (r: string)
    ensures |r| <= |s|
    ensures forall i :: 0 <= i < |r| ==> r[i] != c
    ensures forall i :: 0 <= i < |s| && s[i] != c ==> s[i] in r
    decreases |s|
  {
    if s == [] then "" else (if s[0] == c then "" else [s[0]]) + Remove(s[1..], c)
  }

  lemma {:induction false} RemoveAppend(a: string, b: string, c: char)
    ensures Remove(a + b, c) == Remove(a, c) + Remove(b, c)
    decreases |a|
  {
    if a == [] {
      assert a + b == b;
    } else {
      assert (a + b)[1..] == a[1..] + b;
      RemoveAppend(a[1..], b, c);
    }
  }

  lemma {:induction false} RemoveAbsent(s: string, c: char)
    requires forall i :: 0 <= i < |s| ==> s[i] != c
    ensures Remove(s, c) == s
    decreases |s|
  {
    if s != [] {
      RemoveAbsent(s[1..], c);
    }
  }

  function Repeat(c: char, n: nat): (r: string)
    ensures |r| == n && forall i :: 0 <= i < n ==> r[i] == c
  {
    if n == 0 then "" else [c] + Repeat(c, n - 1)
  }

  predicate StartsWith(s: string, prefix: string) {
    |prefix| <= |s| && s[..|prefix|] == prefix
  }

  predicate EndsWith(s: string, suffix: string) {
    |suffix| <= |s| && s[|s| - |suffix|..] == suffix
  }

  /** `needle` occurs somewhere in `s`. */
  predicate Contains(s: string, needle: string) {
    exists i :: 0 <= i <= |s| - |needle| && StartsWith(s[i..], needle)
  }

  /** Regrouping a concatenation of five texts. */
  lemma Regroup(a: string, b: string, c: string, d: string, e: string)
    ensures a + b + c + d + e == a + (b + c + d + e)
  {
  }

  lemma ContainsMiddle(a: string, b: string, c: string)
    ensures Contains(a + b + c, b)
  {
    var s := a + b + c;
    assert s[|a|..][..|b|] == b;
  }

  lemma ContainsAfter(a: string, s: string, needle: string)
    requires Contains(s, needle)
    ensures Contains(a + s, needle)
  {
    var i :| 0 <= i <= |s| - |needle| && StartsWith(s[i..], needle);
    assert (a + s)[|a| + i..] == s[i..];
  }

  lemma EndsAfter(a: string, s: string, suffix: string)
    requires EndsWith(s, suffix)
    ensures EndsWith(a + s, suffix)
  {
    assert (a + s)[|a + s| - |suffix|..] == s[|s| - |suffix|..];
  }
}
