# yalec core in Dafny

A model of the core of yalec, a small command-line client for the ACME
protocol, version 1 (the protocol Let's Encrypt spoke before RFC 8555). The
model has four layers.

- **The service.** `LeService` (module `Engine`) talks to an ACME server. It
  reads the directory and keeps the replay nonce. It registers an account
  and requests an authorization for an identifier. It selects a combination
  of challenges that has registered authenticators, then runs each one:
  prepare, trigger, wait, clean up. Finally it posts a CSR and polls the
  certificate location.
- **The building blocks.** `HttpProviderCurl` (module `Http`) prepares a GET
  or a POST, collects the reply headers as (name, value) pairs and answers
  header lookups case-insensitively. The PEM, base64url and big-number
  helpers live in `Encoding`, on top of the base64 codec (`Base64`). The
  objects `CertificateSigningRequest`, `Certificate` and `RsaKeyPair` live in
  module `Cert`.
- **The command line.** `getOpts` (module `Options`) folds parsed options
  into a dict of lists. The `userkey` / `serverkey` command module (module
  `KeyCmd`) builds on it.
- **Shared pieces.** `Common` holds `Result`/`Option`, Python's `strip`,
  `lower`, `int`, `join` and the error kinds. `JsonValue` holds JSON values
  without floats (null, booleans, integers, strings, lists and objects) and
  the Python operations the core applies to them: subscription of a dict,
  a list or a string, `in`, `has_key` and iteration. Each raises the
  `KeyError`, `IndexError` or `TypeError` Python raises for that kind of
  value, except iteration over a non-empty dict, whose key order is left
  open. Both gaps are listed under Left out.

How the Python side becomes Dafny:

- **Exceptions** become the `Err` side of `Result`, with the exception's
  kind.
- **Objects whose fields change** become classes. The methods of those
  classes are proved against pure functions.
- **The server** is a function from the whole request log to the reply.
- **The JSON parser** is a function from bytes to an optional value.
- **RSA, SHA-256 and JWS encoding** are fields of a `Crypto` value, so the
  behaviour of a run is fixed by its inputs.
- **The service state** (directory, nonce, request log, authenticator
  events) is `Snapshot()`. Every service method is proved to produce exactly
  the state and result of its `...Op` function. The lemmas then state the
  protocol properties about those functions.

## Model

| member | source | states |
|---|---|---|
| Common.Strip | letsencrypt/encoding.py:44 | `strip()` returns a text no longer than its input that neither starts nor ends with whitespace |
| Common.StripShape | letsencrypt/encoding.py:44 | `strip()` removes a whitespace prefix and suffix: the result is a slice of the input with no leading or trailing whitespace |
| Common.LowerChars | letsencrypt/http.py:120 | `lower()` keeps the length and maps exactly the ASCII capitals to small letters |
| Common.NatToStringParses | modules/key.py:119 | `"%d" % n` read back with `int` gives `n`: the numbering of the `DNS.` lines is the decimal text of the number |
| Common.ParseInt | modules/key.py:54 | `int(s)` raises ValueError or succeeds on a text whose stripped form is non-empty, starting with `-` when the number is negative |
| Common.StripAround | letsencrypt/encoding.py:44 | `strip()` of whitespace, a text without whitespace at its ends, and whitespace gives that text |
| Common.ParseIntAccepts | modules/key.py:54 | `int` of whitespace, an optional sign, whitespace, decimal digits and whitespace gives the signed value of the digits, so `int("- 5") == -5` as in Python 2 |
| Common.ParseIntRefuses | modules/key.py:54 | `int` of a text holding a character that is neither whitespace, digit nor sign raises ValueError |
| JsonValue.Get | letsencrypt/__init__.py:73 | `d[key]` succeeds iff `d` is a dict holding the key, and gives its value; KeyError on a dict without it, TypeError on any other value |
| JsonValue.Position | letsencrypt/__init__.py:114 | a list or string index: an in-range int as is, a negative one counted from the end, a bool as 0 or 1; IndexError out of range, TypeError for any other index |
| JsonValue.At | letsencrypt/__init__.py:114-115 | `x[i]`: a list gives the element at `Position`, a string its one-character string, a dict the value of a string key; KeyError for an absent hashable key, TypeError for a list or dict key and for indexing a scalar |
| JsonValue.Items | letsencrypt/__init__.py:109-113 | a `for` loop runs over a list's elements, a string's characters or an empty dict; a non-empty dict gives DictOrder, any other value TypeError |
| JsonValue.HasStringKey | letsencrypt/__init__.py:116 | `has_key` on a dict with string keys is true exactly for a string key it holds, and raises exactly for an unhashable list or dict |
| JsonValue.HasMember | letsencrypt/__init__.py:44 | `key in d` on a dict is key membership, on a list membership of the string value |
| Base64.EncodeShape | letsencrypt/encoding.py:27 | `b64encode` output is a multiple of four long, symbols up to `ceil(4n/3)`, `=` padding after |
| Base64.DecodeEncode | letsencrypt/encoding.py:27-49 | `b64decode(b64encode(d)) == d` for every byte string |
| Base64.Translate | letsencrypt/encoding.py:61 | the two-character `replace` keeps the length and maps each position independently |
| Base64.UrlSafeInverse | letsencrypt/encoding.py:61 | undoing the URL-safe alphabet restores any standard base64 text |
| Encoding.ConsoleCleanBinary | letsencrypt/encoding.py:5-13 | same length; each character kept iff printable ASCII (32..126), otherwise replaced by `.` |
| Encoding.ConsoleCleanIdempotent | letsencrypt/encoding.py:5-13 | cleaning a cleaned text changes nothing |
| Encoding.WrapShape | letsencrypt/encoding.py:28 | `textwrap.wrap` of whitespace-free text: non-empty chunks of at most `width`, all but the last full, concatenating to the input |
| Encoding.WrapChunks | letsencrypt/encoding.py:28 | chunk `k` is the slice of the input starting at `k * width` |
| Encoding.ToPem | letsencrypt/encoding.py:15-28 | `toPem` text is never empty and ends with a newline |
| Encoding.ToPemLines | letsencrypt/encoding.py:15-28 | `toPem` is its lines each followed by a newline |
| Encoding.PemLinesSymbols | letsencrypt/encoding.py:15-28 | every line `toPem` writes is base64 text |
| Encoding.ToPemShape | letsencrypt/encoding.py:15-28 | `toPem` lines are at most 64 characters, all but the last exactly 64 |
| Encoding.RemoveTerminated | letsencrypt/encoding.py:15-28 | dropping the newlines of newline-terminated lines gives their concatenation |
| Encoding.ToPemUnwrapped | letsencrypt/encoding.py:15-28 | removing the newlines of `toPem(data)` gives `b64encode(data)` |
| Encoding.ReadLinesTerminated | letsencrypt/encoding.py:43 | `readlines()` of newline-terminated lines returns each line with its newline |
| Encoding.FromPem | letsencrypt/encoding.py:30-50 | the loop over lines returns what the recursive scan `PemScan` defines |
| Encoding.PemScanNoEnd | letsencrypt/encoding.py:30-50 | without an end marker line `fromPem` returns None |
| Encoding.PemScanReset | letsencrypt/encoding.py:44-47 | a begin marker line discards everything collected so far |
| Encoding.PemScanLine | letsencrypt/encoding.py:43-50 | a stripped base64 line between the markers is appended to the collected text |
| Encoding.PemScanBody | letsencrypt/encoding.py:30-50 | base64 lines followed by the end marker decode to the collected text plus those lines |
| Encoding.MarkerIsNotBase64 | letsencrypt/encoding.py:45-50 | a marker line is never mistaken for base64 text |
| Encoding.PemFileLines | letsencrypt/encoding.py:15-50 | the lines read back from begin marker, `toPem` text and end marker are exactly those three parts |
| Encoding.PemBodyDecodes | letsencrypt/encoding.py:15-50 | the `toPem` lines followed by the end marker scan back to the data |
| Encoding.PemRoundTrip | letsencrypt/encoding.py:15-50 | `fromPem` of a block written with `toPem` between two distinct markers returns the original data |
| Encoding.JwsIsUnpadded | letsencrypt/encoding.py:52-61 | the JWS form is the URL-safe alphabet applied to the unpadded base64 |
| Encoding.DataToJwsBase64 | letsencrypt/encoding.py:52-61 | the JWS form contains no `=` |
| Encoding.JwsAlphabet | letsencrypt/encoding.py:52-61 | the JWS form has `ceil(4n/3)` characters, all in `[A-Za-z0-9_-]`, no `=` |
| Encoding.Repadded | letsencrypt/encoding.py:52-61 | restoring the alphabet and the padding of a JWS string gives the standard base64 |
| Encoding.JwsRoundTrip | letsencrypt/encoding.py:52-61 | decoding the JWS form (section 2 of RFC 7515) returns the data |
| Encoding.HexDenotes | letsencrypt/encoding.py:70 | `'%x' % n` denotes `n` |
| Encoding.UnhexlifyDenotes | letsencrypt/encoding.py:72 | `unhexlify` of even-length hex gives big-endian bytes with the same value |
| Encoding.NumberBytesMinimal | letsencrypt/encoding.py:63-72 | the bytes of `n` are its big-endian value, at least one byte, no leading zero byte unless `n` is 0 |
| Encoding.NumberToBase64Exponent | letsencrypt/encoding.py:63-72 | the usual RSA exponent 65537 is `AQAB` |
| Encoding.NumberToBase64Zero | letsencrypt/encoding.py:70-72 | zero becomes the one byte 0 and `AA` |
| Encoding.NumberToBase64Decodes | letsencrypt/encoding.py:63-72 | `numberToBase64(n)` decodes, as base64url, to the minimal big-endian bytes of `n` |
| Cert.CsrMarkers | letsencrypt/cert.py:30 | the CSR begin and end lines are distinct markers that are not base64 text |
| Cert.CertMarkers | letsencrypt/cert.py:70 | the certificate begin and end lines are distinct markers that are not base64 text |
| Cert.OutStream.Write | letsencrypt/cert.py:51-53 | `fp.write(s)` appends the bytes of `s` and nothing else |
| Cert.PemFileReads | letsencrypt/cert.py:45-53 | the bytes `toPem` writes, read back as lines, scan to the data |
| Cert.ReadPem | letsencrypt/cert.py:29-30 | a PEM load scans the lines of the stream with `fromPem` |
| Cert.CertificateSigningRequest.constructor | letsencrypt/cert.py:13-14 | a new CSR holds no data |
| Cert.CertificateSigningRequest.Load | letsencrypt/cert.py:22-35 | PEM stores what `fromPem` returns, even None; DER stores the bytes; any other format raises and keeps the data |
| Cert.CertificateSigningRequest.GetJwsFormat | letsencrypt/cert.py:37-43 | empty text iff no non-empty data is loaded; otherwise URL-safe text that decodes back to the DER bytes |
| Cert.CertificateSigningRequest.ToPem | letsencrypt/cert.py:45-53 | writes begin line, `toPem` text and end line; without data only the begin line is written before the TypeError |
| Cert.CsrPemRoundTrip | letsencrypt/cert.py:22-53 | a CSR written with `toPem` loads back, as PEM, to the same data |
| Cert.Certificate.constructor | letsencrypt/cert.py:59-60 | a new certificate holds no data |
| Cert.Certificate.Load | letsencrypt/cert.py:62-77 | as the CSR's, but a PEM load without an end marker raises TypeError and an empty block is refused, both after storing |
| Cert.Certificate.ToPem | letsencrypt/cert.py:79-87 | writes begin line, `toPem` text and end line; without data only the begin line before the TypeError |
| Cert.CertificatePemRoundTrip | letsencrypt/cert.py:62-87 | a certificate written with `toPem` loads back to the same data |
| Cert.RsaKeyPair.constructor | letsencrypt/cert.py:93-94 | a new key pair holds no key |
| Cert.RsaKeyPair.Load | letsencrypt/cert.py:96-102 | stores the key `RSA.importKey` reads; when the import raises, the key is unchanged |
| Cert.JwkDecodes | letsencrypt/cert.py:104-111 | the JWK has exactly `e`, `kty`, `n`; `kty` is RSA; `e` and `n` decode to the minimal bytes of the exponent and modulus |
| Cert.RsaKeyPair.GetJwk | letsencrypt/cert.py:104-111 | succeeds iff a key is loaded, and then returns that JWK |
| Cert.NumberToBase64Injective | letsencrypt/cert.py:109-110 | different numbers give different `numberToBase64` texts |
| Cert.CondensedJwkInjective | letsencrypt/cert.py:117 | different JWK members give different condensed JSON |
| Cert.ThumbprintInputInjective | letsencrypt/cert.py:113-118 | keys whose public parts differ have different thumbprint inputs (section 3 of RFC 7638) |
| Cert.ThumbprintInput | letsencrypt/cert.py:117-118 | the thumbprint input is byte text, so hashing it is defined |
| Cert.ThumbprintDecodes | letsencrypt/cert.py:113-118 | the thumbprint decodes, as base64url, to the SHA-256 of the condensed JWK's bytes (section 3 of RFC 7638); with a 32-byte digest it is 43 URL-safe characters |
| Cert.RsaKeyPair.GetJwkThumbprint | letsencrypt/cert.py:113-118 | succeeds iff a key is loaded; the thumbprint then decodes to the SHA-256 of that key's condensed JWK and is 43 URL-safe characters |
| Cert.JwsHeader | letsencrypt/cert.py:129-131 | the protected header has `typ` JWT, `alg` RS256, the JWK, and `nonce` exactly when a nonce is given |
| Cert.SplitJoin | letsencrypt/cert.py:132-135 | splitting dot-joined parts that contain no dot gives the parts back |
| Cert.SignedSplits | letsencrypt/cert.py:129-136 | the signed text splits on `.` into the encoded header, the encoded payload and the signature |
| Cert.RsaKeyPair.SignJsonArray | letsencrypt/cert.py:120-136 | succeeds iff a key is loaded; the result splits on `.` into encoded header, encoded payload and signature |
| Http.Split | letsencrypt/http.py:158 | `split(sep, maxsplit)` gives between 1 and `maxsplit + 1` parts |
| Http.ParseHeadersStep | letsencrypt/http.py:148-162 | each header line adds at most one pair, after those of earlier lines |
| Http.HeaderEntrySound | letsencrypt/http.py:148-162 | a stored pair is the stripped line split at its single `: ` separator |
| Http.HeaderEntryField | letsencrypt/http.py:154-162 | a line `k: v` without further separators becomes the pair `(k, v)` |
| Http.HeaderEntryNoSeparator | letsencrypt/http.py:158-160 | a line without a separator adds nothing |
| Http.HeaderEntryTwoSeparators | letsencrypt/http.py:158-160 | a line with two separators adds nothing |
| Http.StatusLine | letsencrypt/http.py:154-156 | the status line is stored under `Response` |
| Http.ParseHeaders | letsencrypt/http.py:148-162 | the header lines give at most one pair each (the per-line behaviour is in the `HeaderEntry` lemmas) |
| Http.HeaderValuesAppend | letsencrypt/http.py:109-122 | the values for a name in more headers are the old ones followed by the new |
| Http.HeaderValuesMembers | letsencrypt/http.py:109-122 | a value is returned iff some header with a matching name carries it |
| Http.HeaderValuesFirst | letsencrypt/http.py:109-134 | none returned iff no name matches; otherwise the first value is that of the first matching header |
| Http.HeaderValuesIgnoreCase | letsencrypt/http.py:118-120 | names that agree up to case give the same values |
| Http.HeaderValues | letsencrypt/http.py:109-122 | at most one value per header (which ones, and in which order, is in the `HeaderValues` lemmas) |
| Http.HttpProviderCurl.constructor | letsencrypt/http.py:30-40 | a new provider for `url` has no request, no header, no data, response 0 |
| Http.HttpProviderCurl.PrepareGet | letsencrypt/http.py:42-63 | prepares a GET of the url with the extra header lines |
| Http.HttpProviderCurl.PreparePost | letsencrypt/http.py:65-85 | prepares a POST of the data with the JSON headers followed by the extra lines |
| Http.HttpProviderCurl.WriteHeader | letsencrypt/http.py:148-162 | adds the pair of one line and changes nothing else |
| Http.HttpProviderCurl.Perform | letsencrypt/http.py:87-107 | without a prepared request raises; otherwise returns the status and appends the reply headers and body |
| Http.HttpProviderCurl.GetHeader | letsencrypt/http.py:109-122 | returns the values of every header whose name matches up to case, in order |
| Http.HttpProviderCurl.GetContentType | letsencrypt/http.py:124-134 | the first Content-Type value, or empty text when there is none |
| Options.OptionMap.constructor | modules/__init__.py:21 | the dict starts as the defaults |
| Options.GetOpts | modules/__init__.py:21-50 | a getopt error gives invalid and an unchanged dict; otherwise the dict is the fold of the options, and valid iff every mandatory name is a key |
| Options.FoldedValues | modules/__init__.py:39-42 | each option's list is its defaults followed by its given values in command-line order |
| Options.GivenNamed | modules/__init__.py:39-42 | an option has given values iff some parsed pair names it |
| Options.FoldedKeys | modules/__init__.py:39-42 | the keys are exactly the default keys and the parsed names |
| Options.MandatoryCheck | modules/__init__.py:43-46 | valid iff each mandatory name is a default or was given |
| Options.FirstValueKept | modules/__init__.py:39-42 | a non-empty default list keeps its first value first |
| Options.NonEmptyLists | modules/__init__.py:39-42 | with non-empty defaults, every key holds at least one value |
| KeyCmd.MandatoryOptions | modules/key.py:40-51 | `--keyout` always mandatory; `--cmd` iff pyOpenSSL is missing; `--csrout`, `--domain` iff server key; nothing else |
| KeyCmd.First | modules/key.py:54 | `m[key][:1][0]`: the first value, KeyError without the key, IndexError on an empty list |
| KeyCmd.Entries | modules/key.py:42-53 | the options always hold `--bits` with the default first |
| KeyCmd.KeyModule.constructor | modules/key.py:28-35 | stores name, validity and options |
| KeyCmd.CreateSpec | modules/key.py:28-56 | no module: NoModule; an unknown name: UnknownModule; otherwise the options hold `--bits` with the default first, and a valid module has every mandatory option and a size in range |
| KeyCmd.KeyModule.Create | modules/key.py:28-56 | raises without a module or for an unknown name, or when the size is not a number; otherwise the module of `CreateSpec` |
| KeyCmd.DescribedModules | modules/key.py:37-38 | a name has a description iff the constructor accepts it |
| KeyCmd.Describe | modules/key.py:129-138 | a description exactly for `userkey` and `serverkey`, otherwise raises |
| KeyCmd.GivenMandatory | modules/key.py:42-53 | since no default is mandatory, the module is valid only if every mandatory option was given |
| KeyCmd.Bits | modules/key.py:54-94 | the size text exists iff `--bits` holds a value; as written the first value, corrected the last |
| KeyCmd.CorrectedBits | modules/key.py:54 | corrected, the size checked is the last `--bits` given, or the default |
| KeyCmd.CreateValidity | modules/key.py:28-56 | corrected: raises iff the size is not a number; valid iff the size is in 2048..4096 and every mandatory option was given |
| KeyCmd.ExecuteSpec | modules/key.py:58-74 | help when invalid or help was asked; printed commands only with `--cmd`, and then the text of `CommandSpec`; key generation only without `--cmd`, with the first `--keyout` and the size read as a number |
| KeyCmd.KeyModule.Execute | modules/key.py:58-67 | help when invalid or help was asked; otherwise the commands with `--cmd`, else key generation |
| KeyCmd.KeyModule.SanConfig | modules/key.py:104-120 | the temporary OpenSSL config with one `DNS.n=` line per domain |
| KeyCmd.SanLinesPrefix | modules/key.py:118-119 | the lines for the first `j` domains start the lines for all of them |
| KeyCmd.SanEntryAt | modules/key.py:118-119 | the `i`-th domain's line is `DNS.<i+1>=<domain>` at the place after the lines before it |
| KeyCmd.CommandSpec | modules/key.py:86-127 | the commands start with the key header and need `--keyout`; KeyError without `--bits`; only KeyError or IndexError are raised |
| KeyCmd.KeyModule.ExecuteCmd | modules/key.py:86-127 | returns the text of `CommandSpec`, or the KeyError/IndexError a lookup raises |
| KeyCmd.CommandShape | modules/key.py:90-127 | key commands with the first `--keyout` and the size `Bits` reads first; nothing more for a user key; the CSR commands for a server key |
| KeyCmd.CsrNamesDomain | modules/key.py:125 | the CSR subject names the first domain |
| KeyCmd.CsrWritesConfig | modules/key.py:104-121 | with several domains the SAN config is written |
| KeyCmd.CsrReadsConfig | modules/key.py:122-125 | with several domains `openssl req` reads that config |
| KeyCmd.CsrRemovesConfig | modules/key.py:123-126 | with several domains the config file is removed last |
| KeyCmd.CsrSingleDomain | modules/key.py:101-126 | with one domain the commands end with the `openssl req` line |
| KeyCmd.ValidModuleRuns | modules/key.py:53-56 | a valid module can run: the commands raise nothing, and without pyOpenSSL it shows help or prints them |
| KeyCmd.DefaultBitsInRange | modules/key.py:42 | the default size 4096 is in range |
| KeyCmd.SmallBitsOutOfRange | modules/key.py:55 | 1024 is out of range |
| KeyCmd.BitsAsWrittenIgnored | modules/key.py:54-56 | as written, the size check always passes; validity depends only on getopt and the mandatory options |
| KeyCmd.BitsAsWrittenExample | modules/key.py:53-56 | `--keyout k --bits 1024` is valid as written and invalid once corrected |
| KeyCmd.DefaultBitsRead | modules/key.py:73-94 | with the default first, the as-written reads of `--bits` give 4096: a generated key has 4096 bits and the printed command asks for 4096 |
| KeyCmd.BitsAsWrittenUsed | modules/key.py:54-94 | as written, every module `Create` accepts generates or prints a 4096-bit key, whatever `--bits` was given |
| KeyCmd.CorrectedBitsUsed | modules/key.py:54-94 | corrected, a valid module checks, prints and generates the same size, the last `--bits` given, and it is in 2048..4096 |
| KeyCmd.HelpAsWrittenNeverFires | modules/key.py:62 | as written the help test never fires for dashed option names; corrected it fires exactly for `-h`/`--help` |
| KeyCmd.HelpAsWrittenExample | modules/key.py:62-66 | with `--cmd --help` a valid module shows help once corrected, but as written prints exactly the key commands for the first `--keyout` and `--bits` |
| Engine.CreateMailContact | letsencrypt/__init__.py:208-214 | one contact, `mailto:` followed by the address |
| Engine.CreateDnsAuth | letsencrypt/__init__.py:216-222 | an identifier with exactly `type` = dns and `value` = the domain |
| Engine.NextNonce | letsencrypt/__init__.py:224-236 | a nonce once known is never lost |
| Engine.NextNonceAbsent | letsencrypt/__init__.py:224-236 | without a Replay-Nonce header the nonce is unchanged |
| Engine.NextNonceFirst | letsencrypt/__init__.py:224-236 | with one, the nonce becomes the value of the first such header |
| Engine.MissingEntry | letsencrypt/__init__.py:42-46 | none missing iff every name is a member; a reported name is one that is absent |
| Engine.CheckDirectoryOp | letsencrypt/__init__.py:16-46 | passes iff all four of `DIR_MIN` are members: `new-authz`, `new-reg`, `new-cert` and `revoke-cert`; only then is the nonce taken |
| Engine.UpdateDirectoryOp | letsencrypt/__init__.py:31-46 | one GET of the base url joins the log, events unchanged; on success the directory is the parsed body of that reply |
| Engine.UpdateDirectoryAccepts | letsencrypt/__init__.py:31-46 | one GET of the base url; success iff status 200, the body parses and every resource is named; directory stored on a parsed 200; HttpStatus otherwise |
| Engine.SendSignedOp | letsencrypt/__init__.py:53-56 | on success, one POST to the target with the JSON headers and the nonce line; on failure nothing changes |
| Engine.PostAnswer | letsencrypt/__init__.py:57-64 | success iff the body parses, giving (status == expected, document) and the next nonce; ValueError otherwise |
| Engine.SignedPostOp | letsencrypt/__init__.py:53-64 | events and directory never change; on success nonce, key and url were present, one request to the url joined the log, and the flag is true iff its status is the expected one |
| Engine.SignedPostProtocol | letsencrypt/__init__.py:48-64 | without nonce, key or url: raises, state unchanged; otherwise exactly one signed POST whose payload part encodes the request, and the answer of PostAnswer |
| Engine.NewRegOp | letsencrypt/__init__.py:48-64 | events and directory unchanged; on success the directory names `new-reg`, one request to it joined the log, and the flag is true iff the status is 201 |
| Engine.NewRegPosts | letsencrypt/__init__.py:48-64 | one request to the directory's `new-reg`; success flag iff 201 |
| Engine.NewAuthzOp | letsencrypt/__init__.py:87-101 | events and directory unchanged; on success the directory names `new-authz`, one request to it joined the log, and the flag is true iff the status is 201 |
| Engine.NewAuthzPosts | letsencrypt/__init__.py:87-101 | one request to `new-authz`; success flag iff 201 |
| Engine.TriggerOp | letsencrypt/__init__.py:133-148 | events and directory never change |
| Engine.TriggerPosts | letsencrypt/__init__.py:133-148 | one POST to the challenge uri carrying type and key authorization; success flag iff 202 |
| Engine.PollAuthz | letsencrypt/__init__.py:160-169 | polling leaves events, directory and nonce alone |
| Engine.PollAuthzSteps | letsencrypt/__init__.py:160-169 | between 1 and `left` identical GETs; every reply but the last is pending; the last is returned, not pending unless polls ran out |
| Engine.WaitAuthzOp | letsencrypt/__init__.py:156-170 | waiting leaves events, directory and nonce alone |
| Engine.WaitAuthzDonePolls | letsencrypt/__init__.py:156-170 | 1 to 20 GETs of the uri (`range(20)`), exactly 1 when not blocking; the flag is true iff status is `valid` |
| Engine.Covered | letsencrypt/__init__.py:113-119 | a covered combination gives one registered challenge per entry |
| Engine.Select | letsencrypt/__init__.py:103-123 | every selected challenge has a registered authenticator |
| Engine.SelectChallengesSpec | letsencrypt/__init__.py:103-123 | every selected challenge has a registered authenticator |
| Engine.Picked | letsencrypt/__init__.py:113-119 | the challenges a combination names, in its order |
| Engine.CoveredUsable | letsencrypt/__init__.py:113-119 | a combination is covered iff every challenge it names is registered, and then gives them in order |
| Engine.SelectFirst | letsencrypt/__init__.py:103-123 | the first usable combination is selected |
| Engine.SelectNone | letsencrypt/__init__.py:103-123 | no usable combination selects nothing |
| Engine.SelectExample | letsencrypt/__init__.py:103-123 | with only `http-01` registered, `[[0],[1]]` selects the http challenge |
| Engine.WaitOnUri | letsencrypt/__init__.py:78-82 | waiting leaves the events alone |
| Engine.Attempt | letsencrypt/__init__.py:78-82 | prepared before the trigger; cleaned up after trigger and wait unless an exception escaped |
| Engine.AttemptWaitsAfterTrigger | letsencrypt/__init__.py:79-82 | the wait follows only an accepted trigger: a raise is passed on; a refused trigger sends no more requests and answers False; a completed wait has polled the challenge's "uri" with the nonce header and answers whether the last status is "valid" |
| Engine.AuthzStep | letsencrypt/__init__.py:77-84 | the directory is kept and events are only added; without a key nothing changes and the step raises |
| Engine.AuthzStepEvents | letsencrypt/__init__.py:76-84 | a completed step adds prepare then cleanup with token "." thumbprint; a failed step at most the prepare |
| Engine.ConsShape | letsencrypt/__init__.py:76-84 | a completed pair followed by a run over the rest is a run over all |
| Engine.AuthzLoop | letsencrypt/__init__.py:76-85 | the directory is kept and events are only added; with challenges but no key nothing changes and the loop raises |
| Engine.AuthzLoopEvents | letsencrypt/__init__.py:76-85 | the events are a prefix of prepare/cleanup pairs for the selected challenges; without an exception the last is a cleanup; all of them when every one succeeds; a refusal adds at least one complete pair |
| Engine.RunPassesStop | letsencrypt/__init__.py:76-85 | for any pass, the loop ends after `i` accepted passes leading to `mid`: success iff they cover every challenge, then in `mid`; otherwise the outcome is the pass on challenge `i` from `mid` |
| Engine.AcceptedCycles | letsencrypt/__init__.py:76-84 | accepted passes that each add their challenge's prepare/cleanup pair add the pairs of all of them, in order |
| Engine.CyclesSnoc | letsencrypt/__init__.py:76-84 | the pairs of the challenges followed by one more are the pairs so far then that one's pair |
| Engine.StopCycles | letsencrypt/__init__.py:76-84 | a pass that answers after `i` accepted ones leaves exactly the pairs of challenges `0..i` |
| Engine.PassOfCycles | letsencrypt/__init__.py:77-82 | every step that answers adds its challenge's prepare/cleanup pair |
| Engine.AuthzLoopPasses | letsencrypt/__init__.py:76-85 | the loop is the generic run of passes with `AuthzStep` as the pass |
| Engine.AuthzLoopSuccess | letsencrypt/__init__.py:76-85 | True means every selected challenge was accepted in turn, ending in the loop's final state |
| Engine.AuthzLoopRefusal | letsencrypt/__init__.py:76-85 | False comes from some challenge `i`: every earlier one was accepted, the loop's state and answer are that step's, no later challenge is touched, and the events are exactly the pairs of challenges `0..i` |
| Engine.AuthzLoopRefusalEvents | letsencrypt/__init__.py:76-84 | a refusal at `i` after accepted steps leaves exactly the pairs of challenges `0..i` |
| Engine.SimpleAuthzOp | letsencrypt/__init__.py:66-85 | the directory is kept and events are only added; a pair answer is always a failure; a flag answer means `newAuthz` succeeded with True |
| Engine.AuthorizeOp | letsencrypt/__init__.py:73-85 | after a granted authorization: "no authenticator" leaves the state alone; a flag answer means `challenges` and `combinations` were present and a non-empty selection was made |
| Engine.SimpleAuthzEarlyExits | letsencrypt/__init__.py:66-75 | a refused authorization is returned as is; with nothing selected the answer is "no authenticator" and no event occurs |
| Engine.Rejection | letsencrypt/__init__.py:184-185 | the (False, problem) answer exists iff the body parses |
| Engine.PollCert | letsencrypt/__init__.py:189-197 | polling leaves events, directory and nonce alone |
| Engine.PollCertSteps | letsencrypt/__init__.py:189-197 | 1 to `left` identical GETs; each earlier reply was a 202 with a usable Retry-After; the last reply is returned unless its pause raised |
| Engine.FetchCertOp | letsencrypt/__init__.py:187-205 | fetching leaves events, directory and nonce alone |
| Engine.CertAnswerOp | letsencrypt/__init__.py:183-205 | handling the answer leaves events and directory alone |
| Engine.NewCertOp | letsencrypt/__init__.py:172-205 | newCert leaves events and directory alone |
| Engine.NewCertAnswer | letsencrypt/__init__.py:183-189 | not 201: the refusal; 201 without Location: IndexError; otherwise polling the first Location |
| Engine.FetchCertPolls | letsencrypt/__init__.py:189-205 | at most 4 GETs of the location; issued iff the last status is 200, and then the certificate is its body |
| Engine.RetryAfter | letsencrypt/__init__.py:196-197 | corrected pause: IndexError without a Retry-After header; otherwise `int` of the first value, ValueError if it is no number, IOError (from `sleep`) if negative |
| Engine.RetryAfterSeconds | letsencrypt/__init__.py:196-197 | a first Retry-After header holding the decimal text of `n` gives a pause of `n` seconds |
| Engine.PollCertAgain | letsencrypt/__init__.py:189-197 | a 202 with a usable pause and polls left means polling again from the new log |
| Engine.NewCertAsWrittenRefusal | letsencrypt/__init__.py:184-185 | as written a refusal raises TypeError; corrected it gives the parsed problem |
| Engine.NewCertAsWrittenWait | letsencrypt/__init__.py:196 | as written the first 202 raises after one poll; corrected a usable Retry-After leads to a second poll |
| Engine.LeService.constructor | letsencrypt/__init__.py:18-29 | the service holds its collaborators, no directory, no nonce, no requests, no events |
| Engine.LeService.Exchange | letsencrypt/__init__.py:36-38 | one request joins the log and the provider holds the server's reply |
| Engine.LeService.KeepNonce | letsencrypt/__init__.py:224-236 | only the nonce changes, to `NextNonce` of the provider's headers |
| Engine.LeService.UpdateDirectory | letsencrypt/__init__.py:31-46 | state and result are those of `UpdateDirectoryOp` |
| Engine.LeService.SendSigned | letsencrypt/__init__.py:53-56 | state and result are those of `SendSignedOp` |
| Engine.LeService.Answer | letsencrypt/__init__.py:57-64 | state and result are those of `PostAnswer` |
| Engine.LeService.SignedPost | letsencrypt/__init__.py:53-64 | state and result are those of `SignedPostOp` |
| Engine.LeService.NewReg | letsencrypt/__init__.py:48-64 | state and result are those of `NewRegOp` |
| Engine.LeService.NewAuthz | letsencrypt/__init__.py:87-101 | state and result are those of `NewAuthzOp` |
| Engine.LeService.SelectChallenges | letsencrypt/__init__.py:103-123 | the loop returns `SelectChallengesSpec` |
| Engine.LeService.CoverCombination | letsencrypt/__init__.py:113-119 | the inner loop returns `Covered` |
| Engine.LeService.PrepareChallenge | letsencrypt/__init__.py:125-131 | the authenticator of the challenge's type, with one prepare event added |
| Engine.LeService.TriggerChallenge | letsencrypt/__init__.py:133-148 | state and result are those of `TriggerOp` |
| Engine.LeService.CleanupChallenge | letsencrypt/__init__.py:150-154 | one cleanup event added, nothing else changes |
| Engine.LeService.WaitAuthzDone | letsencrypt/__init__.py:156-170 | state and result are those of `WaitAuthzOp` |
| Engine.LeService.SimpleAuthz | letsencrypt/__init__.py:66-85 | state and result are those of `SimpleAuthzOp` |
| Engine.LeService.RunChallenges | letsencrypt/__init__.py:76-85 | the loop over the selection gives `AuthzLoop` |
| Engine.LeService.RunChallenge | letsencrypt/__init__.py:77-84 | one challenge gives `AuthzStep` |
| Engine.LeService.NewCert | letsencrypt/__init__.py:172-205 | state as `NewCertOp`; an issued answer is a fresh certificate holding the DER bytes |
| Engine.LeService.CertAnswer | letsencrypt/__init__.py:183-205 | state and result are those of `CertAnswerOp`; an issued answer is a fresh certificate |
| Engine.LeService.FetchCert | letsencrypt/__init__.py:187-205 | state as `FetchCertOp`; an issued answer is a fresh certificate holding the DER bytes |
| Engine.LeService.PollLocation | letsencrypt/__init__.py:189-197 | the polling loop gives `PollCert` with at most 4 polls |
| Engine.LeService.PollOnce | letsencrypt/__init__.py:190-197 | one GET with the nonce line; the pause is Retry-After on a 202 |

## Left out

- `getopt.getopt` is not modelled. Its outcome is an input to `GetOpts` and `KeyModule.Create`, and None stands for `GetoptError`.
- KeyCmd.KeyModule.Create: modules/key.py:40 passes the short options as the list `["h"]`, not the string `"h"`. For `-h`, `getopt.short_has_arg` then calls `startswith` on that list and raises `AttributeError`, which `getOpts` does not catch. The model takes the getopt outcome as an input, so this crash is not modelled.
- The `print` statements are left out. That covers `printHelp` (modules/key.py:140-159), the messages of `getOpts` and the printing of `__executeCmd`; `ExecuteCmd` returns the text instead.
- `__executeInternal` (modules/key.py:69-84) generates and writes a key with pyOpenSSL. It appears only as the `Generate` outcome of `Execute`.
- The check `__import__("OpenSSL")` becomes the `openSsl` flag.
- pycurl itself is not modelled: no network, timeouts, TLS options or logging. The server is a function from the request log to a reply with status, header lines and body.
- `HttpProviderCurl.getData` (letsencrypt/http.py:136-146) returns `self.__data`, the same stream curl wrote the body into (letsencrypt/http.py:101), after seeking it back to the start. The model reads the collected `data` bytes directly, so the stream position is not modelled.
- RSA import and signing, SHA-256 and `jws.utils.encode` are fields of `Crypto`. They are constrained only by the digest length and the alphabet of their output, and signatures are not checked.
- `json.loads` and `json.dumps` are not modelled. Parsing is a function from bytes to an optional value. `json.dumps` appears only for the condensed JWK of base64url members.
- JsonValue.Json: numbers with a fraction or an exponent, which `json.load` turns into Python floats, and the `NaN`, `Infinity` and `-Infinity` it also accepts, have no case. A server body holding one, such as `"combinations": [[0.0]]`, is outside the model. In Python such a value raises TypeError as a list index, KeyError as a dict key, and is absent for `has_key`. The documents this client reads (directory, registration, authorization, challenge and problem documents) hold integers, strings, lists and objects, and modelling floats would add their text form and rounding, which no property here needs.
- JsonValue.Items: iterating a non-empty dict gives its keys in CPython's hash order, which the model does not fix. `Items` returns the `DictOrder` error there, so Engine.Select, Engine.SelectChallengesSpec and `LeService.SelectChallenges` end in `DictOrder` when `combinations`, or one of the combinations it reaches, is a non-empty dict (for example `"combinations": {"0": 0}`). An empty dict iterates as the empty list.
- `sleep` is not modelled. The pause is computed and its exceptions modelled, but no time passes.
- `textwrap.wrap` is modelled only for text without whitespace. That is the only input it gets here: base64 text.
- Base64.Decode: Python 2's `b64decode` (`binascii.a2b_base64`) skips characters outside the base64 alphabet, so `"QU JD"` decodes to `ABC`, and raises `TypeError` only for bad padding. The model's decoder is strict: any character outside the alphabet is a `TypeError`. This leniency is not modelled. `fromPem` decodes whatever lines lie between the markers, so a PEM file whose lines hold other characters decodes in Python but is a `TypeError` in the model. For the text `toPem` writes and for the JWS forms, which are pure base64, the two agree.
- The authenticator classes (letsencrypt/auth.py) are not part of this model. Only the set of registered types and the prepare/cleanup events are kept.
- `CertificateSigningRequest.valid` (letsencrypt/cert.py:16-20) is the predicate `Valid`, without a contract of its own.
- The modules `register`, `sign` and `revoke`, `main.py`, `yalec.py` and `config.py` are not part of this model.
- Engine.RetryAfter: the corrected pause reads the first Retry-After value as a decimal number of seconds. The HTTP-date form of section 7.1.3 of RFC 7231 is refused with ValueError, as `int` would refuse it.

## Findings

| source | as written | input that shows it | evidently intended | confidence | as-written member | corrected member |
|---|---|---|---|---|---|---|
| letsencrypt/__init__.py:196 | `int(http.getHeader("Retry-After"))` applies `int` to the list of values | any 202 reply to a certificate poll | wait for the first Retry-After value, then poll again | not executed | Engine.NewCertAsWrittenWait | Engine.FetchCertPolls |
| letsencrypt/__init__.py:184-185 | `json.loads(data)` is given the stream `getData` returns | any status other than 201 on new-cert | return `(False, problem document)` | not executed | Engine.NewCertAsWrittenRefusal | Engine.NewCertAnswer |
| modules/key.py:54 | `optsMap["--bits"][:1][0]` reads the default, which `getOpts` always puts first; lines 73 and 90 read it the same way when generating and printing | `userkey --keyout k --bits 1024` | check and use the size the user gave, the last `--bits` value | not executed | KeyCmd.BitsAsWrittenUsed | KeyCmd.CorrectedBitsUsed |
| modules/key.py:62 | `x[0] in ["h", "help"]` tests the first character of each option name, which is always `-` | `userkey --keyout k --cmd --help` | show the help for `-h` or `--help` | not executed | KeyCmd.HelpAsWrittenExample | KeyCmd.HelpAsWrittenNeverFires |
