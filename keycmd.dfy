/**
 * modules/key.py: the `userkey` and `serverkey` command modules. Creating
 * one checks the module name, folds the command-line options into the
 * defaults and checks the key size; `execute` shows the help of an invalid
 * module and otherwise either prints the openssl commands that create the
 * key (and, for a server key, the CSR) or generates the key itself.
 *
 * Two defects of the source are modelled both as written and corrected,
 * selected by `asWritten`: the size check reads the first `--bits` value,
 * which is always the default, and the help test compares the first
 * character of each option name with "h" and "help", which never matches.
 */
module KeyCmd {
  import opened Common
  import opened Options

  const MODULES: seq<string> := ["userkey", "serverkey"]
  const SHORTOPTS: seq<string> := ["h"]
  const BITS_DEFAULT := "4096"
  const MIN_BITS := 2048
  const MAX_BITS := 4096

  const KEY_HEADER := "# create key with the following commands:\n"
  const CSR_HEADER := "# create csr with the following commands:\n"
  /** The start of the shell text that writes the SAN configuration. */
  const SAN_HEAD := "TMPFILE=$(mktemp); " +
    "tee $TMPFILE <<EOF\n[req]\nreq_extensions = v3_req\ndistinguished_name = req_distinguished_name\n\n" +
    "[req_distinguished_name]\n\n[v3_req]\nsubjectAltName = @alt_names\n\n[alt_names]\n"
  const SAN_END := "EOF\n"
  const SAN_USE := " -config $TMPFILE"
  const SAN_CLEAR := "rm $TMPFILE"

  /** getopt, which is not part of this model: the arguments, the short and
      the long options to the parsed pairs, or None for GetoptError. */
  type Getopt = (seq<string>, seq<string>, seq<string>) -> Option<seq<Opt>>

  function LongOpts(name: string): seq<string> {
    ["help", "cmd", "bits="] + ["keyout="] + (if name == "serverkey" then ["domain=", "csrout="] else [])
  }

  function Defaults(): map<string, seq<string>> {
    map["--bits" := [BITS_DEFAULT]]
  }

  /** The key file is always mandatory, `--cmd` without pyOpenSSL, the CSR
      file and a domain for a server key. */
  function Mandatory(name: string, openSsl: bool): seq<string> {
    ["--keyout"] + (if openSsl then [] else ["--cmd"]) + (if name == "serverkey" then ["--csrout", "--domain"] else [])
  }

  lemma MandatoryOptions(name: string, openSsl: bool)
    ensures "--keyout" in Mandatory(name, openSsl)
    ensures "--cmd" in Mandatory(name, openSsl) <==> !openSsl
    ensures ("--csrout" in Mandatory(name, openSsl) && "--domain" in Mandatory(name, openSsl)) <==> name == "serverkey"
    ensures forall m :: m in Mandatory(name, openSsl) ==> m in {"--keyout", "--cmd", "--csrout", "--domain"}
  {
    var ms := Mandatory(name, openSsl);
    assert ms[0] == "--keyout";
    if !openSsl {
      assert ms[1] == "--cmd";
    }
    if name == "serverkey" {
      assert ms[|ms| - 2] == "--csrout" && ms[|ms| - 1] == "--domain";
    }
  }

  /** `optsMap[key][:1][0]`: KeyError without the key, IndexError on an
      empty list. */
  function First(entries: map<string, seq<string>>, key: string): (r: Result<string>)
    ensures r.Ok? <==> key in entries && entries[key] != []
    ensures r.Ok? ==> r.value == entries[key][0]
    ensures r.Err? ==> r.error == (if key in entries then IndexError else KeyError(key))
  {
    if key !in entries then Err(KeyError(key))
    else if entries[key] == [] then Err(IndexError)
    else Ok(entries[key][0])
  }

  /** The `--bits` text the size check reads: the first value as written,
      the value given last once corrected. */
  function BitsText(values: seq<string>, asWritten: bool): string
    requires values != []
  {
    if asWritten then values[0] else values[|values| - 1]
  }

  /** The `--bits` value every reader of the options uses: `[:1][0]` as
      written, the value given last once corrected; a missing key or an
      empty list raises as `First` does. */
  function Bits(entries: map<string, seq<string>>, asWritten: bool): (r: Result<string>)
    ensures r.Ok? <==> "--bits" in entries && entries["--bits"] != []
    ensures r.Ok? ==> r.value == BitsText(entries["--bits"], asWritten)
    ensures r.Err? ==> r == First(entries, "--bits")
  {
    if !asWritten && "--bits" in entries && entries["--bits"] != [] then Ok(BitsText(entries["--bits"], false))
    else First(entries, "--bits")
  }

  /** `int(bits)` and the 2048..4096 range. */
  function BitsInRange(text: string): Result<bool> {
    match ParseInt(text)
    case Err(e) => Err(e)
    case Ok(n) => Ok(MIN_BITS <= n <= MAX_BITS)
  }

  /** The options of a module: getopt's pairs folded into the defaults, or
      the defaults alone when getopt fails. */
  function Entries(parsed: Option<seq<Opt>>): (m: map<string, seq<string>>)
    ensures "--bits" in m && m["--bits"] != [] && m["--bits"][0] == BITS_DEFAULT
  {
    if parsed.None? then Defaults()
    else
      FirstValueKept(Defaults(), parsed.value, "--bits");
      Folded(Defaults(), parsed.value)
  }

  /** What the constructor computes: an exception, or the validity flag and
      the options of the new module. */
  function CreateSpec(argv: seq<string>, getopt: Getopt, openSsl: bool, asWritten: bool)
    : (r: Result<(bool, map<string, seq<string>>)>)
    ensures |argv| < 1 ==> r == Err(NoModule)
    ensures |argv| >= 1 && argv[0] !in MODULES ==> r == Err(UnknownModule(argv[0]))
    ensures r.Err? ==> r.error == NoModule || r.error.UnknownModule? || r.error == ValueError
    ensures r.Ok? ==> "--bits" in r.value.1 && r.value.1["--bits"] != [] && r.value.1["--bits"][0] == BITS_DEFAULT
    ensures r.Ok? && r.value.0 ==>
      AllPresent(r.value.1, Mandatory(argv[0], openSsl)) &&
      BitsInRange(BitsText(r.value.1["--bits"], asWritten)) == Ok(true)
  {
    if |argv| < 1 then Err(NoModule)
    else if argv[0] !in MODULES then Err(UnknownModule(argv[0]))
    else
      var parsed := getopt(argv[1..], SHORTOPTS, LongOpts(argv[0]));
      var entries := Entries(parsed);
      var optsValid := parsed.Some? && AllPresent(entries, Mandatory(argv[0], openSsl));
      match BitsInRange(BitsText(entries["--bits"], asWritten))
      case Err(e) => Err(e)
      case Ok(inRange) => Ok((optsValid && inRange, entries))
  }

  /** The `-h`/`--help` test of `execute`: as written it looks at the first
      character of each option name, which getopt always starts with '-'. */
  predicate HelpRequested(entries: map<string, seq<string>>, asWritten: bool) {
    if asWritten then exists k :: k in entries && |k| > 0 && (k[..1] == "h" || k[..1] == "help")
    else "-h" in entries || "--help" in entries
  }

  datatype Outcome =
    | ShowHelp                                 // `printHelp`, then `return 1`
    | PrintCommand(text: string)               // `__executeCmd`
    | Generate(keyout: string, bits: int)      // `__executeInternal`

  function SanLine(n: nat, domain: string): string {
    "DNS." + NatToString(n) + "=" + domain + "\n"
  }

  /** The `DNS.<n>=<domain>` entries, numbered from 1 in input order. */
  function SanLines(domains: seq<string>): string
    decreases |domains|
  {
    if domains == [] then ""
    else SanLines(domains[..|domains| - 1]) + SanLine(|domains|, domains[|domains| - 1])
  }

  function GenRsaLine(keyout: string, bits: string): string {
    "openssl genrsa -out " + keyout + " " + bits + " ; chmod 600 " + keyout + "\n"
  }

  const REQ_KEY := "openssl req -new -key \""
  const REQ_OUT := "\" -out \""
  const REQ_SUBJECT := "\" -subj \"/CN="
  const REQ_END := "/\""

  function ReqLine(keyout: string, csrout: string, cn: string, sanUse: string): string {
    REQ_KEY + keyout + REQ_OUT + csrout + REQ_SUBJECT + cn + REQ_END + sanUse + "\n"
  }

  /** The CSR commands: the SAN configuration only for several domains. */
  function CsrPart(keyout: string, csrout: string, domains: seq<string>): string
    requires domains != []
  {
    var several := |domains| > 1;
    CSR_HEADER + (if several then SAN_HEAD + SanLines(domains) + SAN_END else "") +
    ReqLine(keyout, csrout, domains[0], if several then SAN_USE else "") + (if several then SAN_CLEAR else "")
  }

  /** The text `__executeCmd` prints, or the exception a lookup raises. */
  function CommandSpec(name: string, entries: map<string, seq<string>>, asWritten: bool): (r: Result<string>)
    ensures r.Ok? ==> StartsWith(r.value, KEY_HEADER) && "--keyout" in entries && entries["--keyout"] != []
    ensures "--bits" !in entries ==> r == Err(KeyError("--bits"))
    ensures r.Err? ==> r.error.KeyError? || r.error == IndexError
  {
    match Bits(entries, asWritten)
    case Err(e) => Err(e)
    case Ok(bits) =>
      match First(entries, "--keyout")
      case Err(e) => Err(e)
      case Ok(keyout) =>
        var keyPart := KEY_HEADER + GenRsaLine(keyout, bits);
        if name != "serverkey" then Ok(keyPart)
        else match First(entries, "--csrout")
          case Err(e) => Err(e)
          case Ok(csrout) =>
            if "--domain" !in entries then Err(KeyError("--domain"))
            else if entries["--domain"] == [] then Err(IndexError)
            else Ok(keyPart + CsrPart(keyout, csrout, entries["--domain"]))
  }

  /** What `execute` does. */
  function ExecuteSpec(name: string, valid: bool, entries: map<string, seq<string>>, asWritten: bool): (r: Result<Outcome>)
    ensures !valid || HelpRequested(entries, asWritten) ==> r == Ok(ShowHelp)
    ensures r.Ok? && r.value.PrintCommand? ==> "--cmd" in entries && CommandSpec(name, entries, asWritten) == Ok(r.value.text)
    ensures r.Ok? && r.value.Generate? ==>
      "--cmd" !in entries && First(entries, "--keyout") == Ok(r.value.keyout) &&
      Bits(entries, asWritten).Ok? && ParseInt(Bits(entries, asWritten).value) == Ok(r.value.bits)
    ensures r.Err? ==> r.error.KeyError? || r.error == IndexError || r.error == ValueError
  {
    if !valid || HelpRequested(entries, asWritten) then Ok(ShowHelp)
    else if "--cmd" in entries then
      match CommandSpec(name, entries, asWritten)
      case Err(e) => Err(e)
      case Ok(text) => Ok(PrintCommand(text))
    else
      match Bits(entries, asWritten)
      case Err(e) => Err(e)
      case Ok(bits) =>
        match ParseInt(bits)
        case Err(e) => Err(e)
        case Ok(n) =>
          match First(entries, "--keyout")
          case Err(e) => Err(e)
          case Ok(keyout) => Ok(Generate(keyout, n))
  }

  /** `KeyModule.describe(name)`. */
  function Describe(name: string): (r: Result<string>)
    ensures r.Ok? <==> name in MODULES
    ensures r.Err? ==> r.error == UnknownModule(name)
  {
    if name == "userkey" then Ok("creates user-keys used registrations")
    else if name == "serverkey" then Ok("creates server-keys used for certificates")
    else Err(UnknownModule(name))
  }

  class KeyModule {
    const name: string
    var valid: bool
    /** `__optsMap`, the dict `getOpts` filled. */
    const options: OptionMap

    constructor(name: string, valid: bool, options: OptionMap)
      ensures this.name == name && this.valid == valid && this.options == options
    {
      this.name := name;
      this.valid := valid;
      this.options := options;
    }

    /** `KeyModule(argv)`: the exceptions of the constructor are the `Err`
        results. */
    static method Create(argv: seq<string>, getopt: Getopt, openSsl: bool, asWritten: bool) returns (r: Result<KeyModule>)
      ensures var spec := CreateSpec(argv, getopt, openSsl, asWritten);
        r.Ok? == spec.Ok? && (r.Err? ==> r.error == spec.error) &&
        (r.Ok? ==> (fresh(r.value) && fresh(r.value.options) && r.value.name == argv[0] &&
          (r.value.valid, r.value.options.entries) == spec.value))
    {
      if |argv| < 1 {
        return Err(NoModule);
      }
      var name := argv[0];
      if name !in MODULES {
        return Err(UnknownModule(name));
      }
      var defaults := new OptionMap(Defaults());
      var valid, options := GetOpts(getopt(argv[1..], SHORTOPTS, LongOpts(name)), Mandatory(name, openSsl), defaults);
      assert options.entries == Entries(getopt(argv[1..], SHORTOPTS, LongOpts(name)));
      var bits := ParseInt(BitsText(options.entries["--bits"], asWritten));
      if bits.Err? {
        return Err(bits.error);
      }
      if bits.value < MIN_BITS || bits.value > MAX_BITS {
        valid := false;
      }
      var m := new KeyModule(name, valid, options);
      return Ok(m);
    }

    /** `execute()`. */
    method Execute(asWritten: bool) returns (r: Result<Outcome>)
      ensures r == ExecuteSpec(name, valid, options.entries, asWritten)
    {
      if !valid || HelpRequested(options.entries, asWritten) {
        return Ok(ShowHelp);
      }
      if "--cmd" in options.entries {
        var text := ExecuteCmd(asWritten);
        if text.Err? {
          return Err(text.error);
        }
        return Ok(PrintCommand(text.value));
      }
      var bits := Bits(options.entries, asWritten);
      if bits.Err? {
        return Err(bits.error);
      }
      var n := ParseInt(bits.value);
      if n.Err? {
        return Err(n.error);
      }
      var keyout := First(options.entries, "--keyout");
      if keyout.Err? {
        return Err(keyout.error);
      }
      return Ok(Generate(keyout.value, n.value));
    }

    /** The SAN configuration `__executeCmd` writes: the fixed head, one
        `DNS.<n>` entry per domain, and the end of the here-document. */
    static method SanConfig(domains: seq<string>) returns (text: string)
      ensures text == SAN_HEAD + SanLines(domains) + SAN_END
    {
      text := SAN_HEAD;
      var n := 0;
      while n < |domains|
        invariant 0 <= n <= |domains|
        invariant text == SAN_HEAD + SanLines(domains[..n])
      {
        assert domains[..n + 1][..n] == domains[..n];
        text := text + SanLine(n + 1, domains[n]);
        n := n + 1;
      }
      assert domains[..n] == domains;
      text := text + SAN_END;
    }

    /** `__executeCmd()`: the command text, built piece by piece. */
    method ExecuteCmd(asWritten: bool) returns (r: Result<string>)
      ensures r == CommandSpec(name, options.entries, asWritten)
    {
      var bits := Bits(options.entries, asWritten);
      if bits.Err? {
        return Err(bits.error);
      }
      var keyout := First(options.entries, "--keyout");
      if keyout.Err? {
        return Err(keyout.error);
      }
      var command := "";
      command := command + KEY_HEADER;
      command := command + GenRsaLine(keyout.value, bits.value);
      assert command == KEY_HEADER + GenRsaLine(keyout.value, bits.value);
      if name == "serverkey" {
        var csrout := First(options.entries, "--csrout");
        if csrout.Err? {
          return Err(csrout.error);
        }
        ghost var keyPart := command;
        command := command + CSR_HEADER;
        if "--domain" !in options.entries {
          return Err(KeyError("--domain"));
        }
        var domains := options.entries["--domain"];
        if |domains| == 0 {
          return Err(IndexError);
        }
        var firstDomain := domains[0];
        var sanConfig := "";
        var sanUse := "";
        var sanClear := "";
        if |domains| > 1 {
          sanConfig := SanConfig(domains);
          command := command + sanConfig;
          sanUse := SAN_USE;
          sanClear := SAN_CLEAR;
        }
        ghost var san := if |domains| > 1 then sanConfig else "";
        assert command == keyPart + CSR_HEADER + san;
        ghost var req := ReqLine(keyout.value, csrout.value, firstDomain, sanUse);
        command := command + ReqLine(keyout.value, csrout.value, firstDomain, sanUse);
        command := command + sanClear;
        Regroup(keyPart, CSR_HEADER, san, req, sanClear);
        assert CsrPart(keyout.value, csrout.value, domains) == CSR_HEADER + san + req + sanClear;
      }
      return Ok(command);
    }
  }

  /** Each prefix of the domains gives a prefix of the SAN entries, so the
      entries appear in input order. */
  lemma {:induction false} SanLinesPrefix(domains: seq<string>, j: nat)
    requires j <= |domains|
    ensures StartsWith(SanLines(domains), SanLines(domains[..j]))
    decreases |domains|
  {
    if j == |domains| {
      assert domains[..j] == domains;
    } else {
      var init := domains[..|domains| - 1];
      SanLinesPrefix(init, j);
      assert init[..j] == domains[..j];
    }
  }

  /** The entry of the i-th domain is `DNS.<i+1>=<domain>`, right after the
      entries of the domains before it. */
  lemma SanEntryAt(domains: seq<string>, i: nat)
    requires i < |domains|
    ensures var at := |SanLines(domains[..i])|;
      at <= |SanLines(domains)| && StartsWith(SanLines(domains)[at..], SanLine(i + 1, domains[i]))
  {
    SanLinesPrefix(domains, i + 1);
    assert domains[..i + 1][..i] == domains[..i];
    var s := SanLines(domains);
    var at := |SanLines(domains[..i])|;
    var line := SanLine(i + 1, domains[i]);
    assert s[..at + |line|] == SanLines(domains[..i]) + line;
    assert s[at..][..|line|] == s[..at + |line|][at..];
  }

  // The CSR text is `CSR_HEADER + san + ReqLine(...) + clear`; each lemma
  // below reads one part of it, through a regrouping over plain strings.

  /** The CSR request names the first domain as its CN. */
  lemma CsrNamesDomain(keyout: string, csrout: string, domains: seq<string>)
    requires domains != []
    ensures Contains(CsrPart(keyout, csrout, domains), REQ_SUBJECT + domains[0] + REQ_END)
  {
    var several := |domains| > 1;
    var san := if several then SAN_HEAD + SanLines(domains) + SAN_END else "";
    var use := if several then SAN_USE else "";
    var clear := if several then SAN_CLEAR else "";
    assert CsrPart(keyout, csrout, domains) ==
      CSR_HEADER + san + (REQ_KEY + keyout + REQ_OUT + csrout + REQ_SUBJECT + domains[0] + REQ_END + use + "\n") + clear;
    InfixSubject(CSR_HEADER, san, REQ_KEY + keyout + REQ_OUT + csrout, REQ_SUBJECT, domains[0], REQ_END, use, "\n", clear);
  }

  /** With several domains the SAN configuration, which lists every domain,
      is written out. */
  lemma CsrWritesConfig(keyout: string, csrout: string, domains: seq<string>)
    requires |domains| > 1
    ensures Contains(CsrPart(keyout, csrout, domains), SAN_HEAD + SanLines(domains) + SAN_END)
  {
    var san := SAN_HEAD + SanLines(domains) + SAN_END;
    CsrSeveralText(keyout, csrout, domains);
    InfixSecond(CSR_HEADER, san, ReqLine(keyout, csrout, domains[0], SAN_USE), SAN_CLEAR);
  }

  /** With several domains the request reads the SAN configuration. */
  lemma CsrReadsConfig(keyout: string, csrout: string, domains: seq<string>)
    requires |domains| > 1
    ensures Contains(CsrPart(keyout, csrout, domains), REQ_END + SAN_USE + "\n")
  {
    var san := SAN_HEAD + SanLines(domains) + SAN_END;
    assert CsrPart(keyout, csrout, domains) ==
      CSR_HEADER + san + (REQ_KEY + keyout + REQ_OUT + csrout + REQ_SUBJECT + domains[0] + REQ_END + SAN_USE + "\n") + SAN_CLEAR;
    InfixUse(CSR_HEADER, san, REQ_KEY + keyout + REQ_OUT + csrout + REQ_SUBJECT + domains[0], REQ_END, SAN_USE, "\n", SAN_CLEAR);
  }

  /** With several domains the temporary configuration file is removed last. */
  lemma CsrRemovesConfig(keyout: string, csrout: string, domains: seq<string>)
    requires |domains| > 1
    ensures EndsWith(CsrPart(keyout, csrout, domains), SAN_CLEAR)
  {
    var front := CSR_HEADER + (SAN_HEAD + SanLines(domains) + SAN_END) + ReqLine(keyout, csrout, domains[0], SAN_USE);
    assert CsrPart(keyout, csrout, domains) == front + SAN_CLEAR;
    EndsAfter(front, SAN_CLEAR, SAN_CLEAR);
  }

  /** With one domain there is no SAN configuration: the text ends with the
      request line, which reads no configuration file. */
  lemma CsrSingleDomain(keyout: string, csrout: string, domains: seq<string>)
    requires |domains| == 1
    ensures EndsWith(CsrPart(keyout, csrout, domains), REQ_END + "\n")
  {
    var front := REQ_KEY + keyout + REQ_OUT + csrout + REQ_SUBJECT + domains[0];
    assert CsrPart(keyout, csrout, domains) == CSR_HEADER + "" + (front + REQ_END + "" + "\n") + "";
    SuffixLine(CSR_HEADER, front, REQ_END, "\n");
  }

  lemma CsrSeveralText(keyout: string, csrout: string, domains: seq<string>)
    requires |domains| > 1
    ensures CsrPart(keyout, csrout, domains) ==
      CSR_HEADER + (SAN_HEAD + SanLines(domains) + SAN_END) + ReqLine(keyout, csrout, domains[0], SAN_USE) + SAN_CLEAR
  {
  }

  lemma InfixSubject(h: string, s: string, f: string, j: string, d: string, e: string, u: string, n: string, c: string)
    ensures Contains(h + s + (f + j + d + e + u + n) + c, j + d + e)
  {
    assert h + s + (f + j + d + e + u + n) + c == (h + s + f) + (j + d + e) + (u + n + c);
    ContainsMiddle(h + s + f, j + d + e, u + n + c);
  }

  lemma InfixSecond(h: string, s: string, r: string, c: string)
    ensures Contains(h + s + r + c, s)
  {
    assert h + s + r + c == h + s + (r + c);
    ContainsMiddle(h, s, r + c);
  }

  lemma InfixUse(h: string, s: string, f: string, e: string, u: string, n: string, c: string)
    ensures Contains(h + s + (f + e + u + n) + c, e + u + n)
  {
    assert h + s + (f + e + u + n) + c == (h + s + f) + (e + u + n) + c;
    ContainsMiddle(h + s + f, e + u + n, c);
  }

  lemma SuffixLine(h: string, f: string, e: string, n: string)
    ensures EndsWith(h + "" + (f + e + "" + n) + "", e + n)
  {
    assert h + "" + (f + e + "" + n) + "" == (h + f) + (e + n);
    EndsAfter(h + f, e + n, e + n);
  }

  /** The key commands come first and use the first key file and the
      `--bits` value `Bits` reads; a user key gets nothing else; a server key
      gets the CSR commands for the `--domain` values after them. */
  lemma CommandShape(name: string, entries: map<string, seq<string>>, asWritten: bool)
    requires CommandSpec(name, entries, asWritten).Ok?
    ensures var text := CommandSpec(name, entries, asWritten).value;
      "--bits" in entries && "--keyout" in entries && entries["--bits"] != [] && entries["--keyout"] != [] &&
      var keyPart := KEY_HEADER + GenRsaLine(entries["--keyout"][0], BitsText(entries["--bits"], asWritten));
      StartsWith(text, keyPart) &&
      (name != "serverkey" ==> text == keyPart) &&
      (name == "serverkey" ==> ("--csrout" in entries && "--domain" in entries && entries["--csrout"] != [] &&
        entries["--domain"] != [] &&
        text == keyPart + CsrPart(entries["--keyout"][0], entries["--csrout"][0], entries["--domain"])))
  {
    var text := CommandSpec(name, entries, asWritten).value;
    var keyPart := KEY_HEADER + GenRsaLine(entries["--keyout"][0], BitsText(entries["--bits"], asWritten));
    assert text[..|keyPart|] == keyPart;
  }

  /** A module that comes out valid can run: the options the commands read
      are present with at least one value, so `execute` raises nothing; and
      without pyOpenSSL it prints the commands rather than generating the
      key. */
  lemma ValidModuleRuns(argv: seq<string>, getopt: Getopt, openSsl: bool, asWritten: bool)
    requires CreateSpec(argv, getopt, openSsl, asWritten).Ok?
    requires CreateSpec(argv, getopt, openSsl, asWritten).value.0
    ensures var entries := CreateSpec(argv, getopt, openSsl, asWritten).value.1;
      CommandSpec(argv[0], entries, asWritten).Ok? &&
      (!openSsl ==> (ExecuteSpec(argv[0], true, entries, asWritten) in
        {Ok(ShowHelp), Ok(PrintCommand(CommandSpec(argv[0], entries, asWritten).value))}))
  {
    var name := argv[0];
    var parsed := getopt(argv[1..], SHORTOPTS, LongOpts(name));
    var entries := Entries(parsed);
    var ms := Mandatory(name, openSsl);
    MandatoryOptions(name, openSsl);
    assert parsed.Some? && AllPresent(entries, ms);
    forall c | c in entries
      ensures entries[c] != []
    {
      NonEmptyLists(Defaults(), parsed.value, c);
    }
    assert ms[0] == "--keyout";
    if name == "serverkey" {
      assert ms[|ms| - 2] == "--csrout" && ms[|ms| - 1] == "--domain";
    }
    if !openSsl {
      assert ms[1] == "--cmd";
    }
  }

  /** Every module name the constructor accepts has a description, and no
      other name has one. */
  lemma DescribedModules(argv: seq<string>, getopt: Getopt, openSsl: bool, asWritten: bool)
    requires argv != []
    ensures Describe(argv[0]).Ok? <==> CreateSpec(argv, getopt, openSsl, asWritten) != Err(UnknownModule(argv[0]))
  {
  }

  /** Without an exception, the module is valid iff getopt succeeded, every
      mandatory option was given (the defaults hold only `--bits`), and the
      size read is in range; corrected, the size read is the last `--bits`
      given, or the default when none is. */
  lemma CreateValidity(argv: seq<string>, getopt: Getopt, openSsl: bool)
    requires argv != [] && argv[0] in MODULES
    requires getopt(argv[1..], SHORTOPTS, LongOpts(argv[0])).Some?
    ensures var opts := getopt(argv[1..], SHORTOPTS, LongOpts(argv[0])).value;
      var given := Given(opts, "--bits");
      var bits := if given == [] then BITS_DEFAULT else given[|given| - 1];
      var spec := CreateSpec(argv, getopt, openSsl, false);
      (spec.Ok? <==> BitsInRange(bits).Ok?) &&
      (spec.Ok? ==> (spec.value.0 <==> (BitsInRange(bits) == Ok(true) &&
        forall k :: 0 <= k < |Mandatory(argv[0], openSsl)| ==> Given(opts, Mandatory(argv[0], openSsl)[k]) != [])))
  {
    var opts := getopt(argv[1..], SHORTOPTS, LongOpts(argv[0])).value;
    CorrectedBits(opts);
    GivenMandatory(opts, argv[0], openSsl);
  }

  /** Corrected, the size read is the last `--bits` given, or the default. */
  lemma CorrectedBits(opts: seq<Opt>)
    ensures var given := Given(opts, "--bits");
      BitsText(Entries(Some(opts))["--bits"], false) == if given == [] then BITS_DEFAULT else given[|given| - 1]
  {
    FoldedValues(Defaults(), opts, "--bits");
  }

  /** The defaults hold none of the mandatory options, so each must be given. */
  lemma GivenMandatory(opts: seq<Opt>, name: string, openSsl: bool)
    ensures AllPresent(Entries(Some(opts)), Mandatory(name, openSsl)) <==>
      forall k :: 0 <= k < |Mandatory(name, openSsl)| ==> Given(opts, Mandatory(name, openSsl)[k]) != []
  {
    var ms := Mandatory(name, openSsl);
    MandatoryCheck(Defaults(), opts, ms);
    MandatoryOptions(name, openSsl);
    forall k | 0 <= k < |ms|
      ensures ms[k] !in Defaults()
    {
      assert ms[k] in ms;
    }
  }

  // ---------------------------------------------------------------------
  // The two defects

  /** As written, the size check reads the default: whatever `--bits` the
      user gives, the check passes, and validity is down to getopt and the
      mandatory options alone. */
  lemma BitsAsWrittenIgnored(argv: seq<string>, getopt: Getopt, openSsl: bool)
    requires argv != [] && argv[0] in MODULES
    ensures var spec := CreateSpec(argv, getopt, openSsl, true);
      spec.Ok? && (spec.value.0 <==> (getopt(argv[1..], SHORTOPTS, LongOpts(argv[0])).Some? &&
        AllPresent(spec.value.1, Mandatory(argv[0], openSsl))))
  {
    DefaultBitsInRange();
  }

  lemma DefaultBitsInRange()
    ensures BitsInRange(BITS_DEFAULT) == Ok(true)
  {
    NatToStringParses(4096);
    assert NatToString(4096) == BITS_DEFAULT;
  }

  /** With `--keyout k --bits 1024` and pyOpenSSL present, a user key
      module is valid as written and invalid once corrected. */
  lemma BitsAsWrittenExample(argv: seq<string>, getopt: Getopt)
    requires argv != [] && argv[0] == "userkey"
    requires getopt(argv[1..], SHORTOPTS, LongOpts(argv[0])) == Some([("--keyout", "k"), ("--bits", "1024")])
    ensures CreateSpec(argv, getopt, true, true).Ok? && CreateSpec(argv, getopt, true, true).value.0
    ensures CreateSpec(argv, getopt, true, false).Ok? && !CreateSpec(argv, getopt, true, false).value.0
  {
    var opts: seq<Opt> := [("--keyout", "k"), ("--bits", "1024")];
    BitsAsWrittenIgnored(argv, getopt, true);
    SmallBitsOutOfRange();
    assert Given(opts, "--bits") == ["1024"] by {
      assert opts[1..] == [("--bits", "1024")];
      assert opts[1..][1..] == [];
    }
    CorrectedBits(opts);
    GivenMandatory(opts, "userkey", true);
    assert Mandatory("userkey", true) == ["--keyout"];
    assert Given(opts, "--keyout") != [] by {
      assert opts[0].0 == "--keyout";
    }
  }

  lemma SmallBitsOutOfRange()
    ensures BitsInRange("1024") == Ok(false)
  {
    NatToStringParses(1024);
    assert NatToString(1024) == "1024";
  }

  /** As written, the help test never fires for option names that start
      with '-', as getopt's always do; corrected, it fires exactly for `-h`
      and `--help`. */
  lemma HelpAsWrittenNeverFires(entries: map<string, seq<string>>)
    requires forall k :: k in entries ==> |k| > 0 && k[0] == '-'
    ensures !HelpRequested(entries, true)
    ensures HelpRequested(entries, false) <==> "-h" in entries || "--help" in entries
  {
    forall k | k in entries
      ensures !(k[..1] == "h" || k[..1] == "help")
    {
      assert k[..1][0] == '-';
    }
  }

  /** A valid user key module given `--cmd --help` prints the commands as
      written and shows the help once corrected. */
  lemma HelpAsWrittenExample(entries: map<string, seq<string>>)
    requires forall k :: k in entries ==> |k| > 0 && k[0] == '-'
    requires "--help" in entries && "--cmd" in entries
    requires "--keyout" in entries && entries["--keyout"] != []
    requires "--bits" in entries && entries["--bits"] != []
    ensures ExecuteSpec("userkey", true, entries, false) == Ok(ShowHelp)
    ensures ExecuteSpec("userkey", true, entries, true).Ok? && ExecuteSpec("userkey", true, entries, true).value.PrintCommand?
    ensures ExecuteSpec("userkey", true, entries, true).value.text ==
      KEY_HEADER + GenRsaLine(entries["--keyout"][0], entries["--bits"][0])
  {
    HelpAsWrittenNeverFires(entries);
    assert Bits(entries, true) == Ok(entries["--bits"][0]);
    assert CommandSpec("userkey", entries, true) == Ok(KEY_HEADER + GenRsaLine(entries["--keyout"][0], entries["--bits"][0]));
  }

  /** Corrected, the size a valid module prints or generates is the one the
      constructor checked: the last `--bits` given, in 2048..4096. */
  lemma CorrectedBitsUsed(argv: seq<string>, getopt: Getopt, openSsl: bool)
    requires CreateSpec(argv, getopt, openSsl, false).Ok? && CreateSpec(argv, getopt, openSsl, false).value.0
    ensures var entries := CreateSpec(argv, getopt, openSsl, false).value.1;
      var bits := BitsText(entries["--bits"], false);
      var out := ExecuteSpec(argv[0], true, entries, false);
      BitsInRange(bits) == Ok(true) && CommandSpec(argv[0], entries, false).Ok? &&
      StartsWith(CommandSpec(argv[0], entries, false).value, KEY_HEADER + GenRsaLine(entries["--keyout"][0], bits)) &&
      (out.Ok? && out.value.Generate? ==> ParseInt(bits) == Ok(out.value.bits) && MIN_BITS <= out.value.bits <= MAX_BITS)
  {
    var entries := CreateSpec(argv, getopt, openSsl, false).value.1;
    ValidModuleRuns(argv, getopt, openSsl, false);
    CommandShape(argv[0], entries, false);
  }

  /** As written, every reader takes the default: a module that prints or
      generates a key always uses 4096 bits, whatever `--bits` says. */
  lemma BitsAsWrittenUsed(argv: seq<string>, getopt: Getopt, openSsl: bool)
    requires CreateSpec(argv, getopt, openSsl, true).Ok?
    ensures var (valid, entries) := CreateSpec(argv, getopt, openSsl, true).value;
      var out := ExecuteSpec(argv[0], valid, entries, true);
      Bits(entries, true) == Ok(BITS_DEFAULT) &&
      (out.Ok? && out.value.Generate? ==> out.value.bits == 4096) &&
      (out.Ok? && out.value.PrintCommand? ==> StartsWith(out.value.text, KEY_HEADER + GenRsaLine(entries["--keyout"][0], BITS_DEFAULT)))
  {
    var (valid, entries) := CreateSpec(argv, getopt, openSsl, true).value;
    DefaultBitsRead(argv[0], valid, entries);
  }

  /** When the first `--bits` is the default, the as-written readers use it. */
  lemma DefaultBitsRead(name: string, valid: bool, entries: map<string, seq<string>>)
    requires "--bits" in entries && entries["--bits"] != [] && entries["--bits"][0] == BITS_DEFAULT
    ensures var out := ExecuteSpec(name, valid, entries, true);
      Bits(entries, true) == Ok(BITS_DEFAULT) &&
      (out.Ok? && out.value.Generate? ==> out.value.bits == 4096) &&
      (out.Ok? && out.value.PrintCommand? ==> StartsWith(out.value.text, KEY_HEADER + GenRsaLine(entries["--keyout"][0], BITS_DEFAULT)))
  {
    NatToStringParses(4096);
    assert NatToString(4096) == BITS_DEFAULT;
    var out := ExecuteSpec(name, valid, entries, true);
    if out.Ok? && out.value.PrintCommand? {
      CommandShape(name, entries, true);
    }
  }
}
