# acmedns in Dafny

A model of the core of acmedns, a small ACME (Let's Encrypt, protocol v1)
client that proves control of domains with the dns-01 challenge and writes
the certificate it obtains. Two Python files are modelled:

- `acmedns/client.py`: the `Client` and what it does.
  - It loads the RSA account key through openssl. From openssl's text it builds the JWS header, the JWK and its thumbprint.
  - It sends JWS-signed requests, each with a nonce fetched just before.
  - It registers the account.
  - It waits for the TXT record `_acme-challenge.<domain>` to propagate: one check, then up to 24 retries 5 seconds apart.
  - For each domain of a CSR it requests a challenge, derives the key authorization and the TXT value, and deploys the record through the DNS adapter. It then triggers and polls the challenge, and deletes the record in a `finally`.
  - It sends the CSR to new-cert and writes the certificate in PEM armour.
  - `sign` first checks whether the certificate on disk is still valid.
- `acmedns/config.py`: the `ConfigurationManager`.
  - The candidate configuration files.
  - Parameter lookup: the environment, then the file's section, then nothing.
  - File-name resolution: as given, then under `certs_path`, then under the configuration directory.
  - The `domain` section, turned into CSR paths.
  - The split of an adapter class path.

How the world is modelled:

- Everything outside the process is an oracle in `World.Oracles`: the CA, the DNS resolver, the DNS adapter, openssl, SHA-256, `json.dumps` and `isfile`.
- An oracle that depends on history receives the trace of events so far.
- The `World` class holds the oracles and that trace.
- Every `Client` method that sends a request, queries DNS, sleeps, calls the adapter or writes a file appends to the trace. `LoadAccountKey` and `Sign` only read (openssl's view of the key, whether the certificate file exists, openssl's `-checkend`) and append nothing.
- Each such method is proved equal to a specification function (`SignedSpec`, `WaitFrom`, `ProveSpec`, `IssueSpec`, ...). The function returns a `Run`: the result and the events appended.
- Lemmas about these functions state what the client promises, for example:
  - no request goes out without the nonce fetched right before it;
  - every deployed record is deleted, and the deletion is the last thing the domain's flow does;
  - the CA is only notified after the record was seen in DNS;
  - the written PEM decodes to the certificate the CA returned.

Module layout:

| file | module | models |
|---|---|---|
| `wrappers.dfy` | `Wrappers` | `Option` and `Result` |
| `seqs.dfy` | `Seqs` | small sequence identities used by the proofs |
| `text.dfy` | `Text` | `str.split`, `join`, `rsplit`, `rpartition`, `replace`, `upper`, `lower`, `textwrap.wrap` |
| `base64.dfy` | `Base64` | RFC 4648 Base 64 with the standard and URL-safe alphabets, and its decoder |
| `hex.dfy` | `Hex` | `"{0:x}".format`, `binascii.unhexlify`, and stripping openssl's separators |
| `jose.dfy` | `Jose` | `Client.__b64`, UTF-8 encoding, the JWK, the thumbprint (RFC 7638), the JWS header and signing input |
| `acme.dfy` | `AcmeRules` | the pure rules: token sanitising, key authorization, TXT value, zone and record name, certificate path, CSR domain set, PEM |
| `world.dfy` | `World` | oracles, events and the `World` class |
| `paths.dfy` | `Paths` | `posixpath.join`, `dirname` and `abspath` |
| `client.dfy` | `AcmeClient` | `ClientConfig`, the `Client` class, the specification functions and their lemmas |
| `config.dfy` | `Config` | `ConfigurationManager` |

## Model

| member | source | states |
|---|---|---|
| Jose.B64 | acmedns/client.py:62-64 | the unpadded URL-safe encoding decodes back to the input bytes |
| Jose.B64Strips | acmedns/client.py:62-64 | `B64(b)` is the padded `urlsafe_b64encode(b)` with every `=` removed |
| Jose.B64Plain | acmedns/client.py:62-64 | `__b64` output holds no `=`, `.`, `"`, `\` or newline, so it can sit inside the JSON and the signing input |
| Base64.Encode | acmedns/client.py:64 | the padded encoding has length 4·⌈n/3⌉, a multiple of 4 |
| Base64.UnpaddedLength | acmedns/client.py:64 | without padding the encoding has (4n+2)/3 characters |
| Base64.PaddedLength | acmedns/client.py:64 | the padding completes the unpadded length to a whole number of 4-character groups |
| Base64.UnpaddedDigits | acmedns/client.py:64 | the unpadded encoding holds only characters of the alphabet |
| Base64.DecodeEncodeUnpadded | acmedns/client.py:64 | decoding inverts the unpadded encoding, for every byte string |
| Base64.EncodeDecodeUnpadded | acmedns/client.py:64 | the other direction: any text that decodes is the encoding of what it decodes to, because the decoder refuses non-zero leftover bits in a final 2- or 3-character group |
| Base64.DecodeUnique | acmedns/client.py:64 | a text decodes to `b` iff it is the unpadded encoding of `b`, so each byte string has exactly one encoding |
| Jose.B64Exact | acmedns/client.py:62-64 | a text decodes to `b` iff it is `B64(b)`, so a contract that gives a member by what it decodes to gives the exact string |
| Base64.DecodeEncode | acmedns/client.py:256 | decoding inverts the padded `b64encode` the PEM armour uses |
| Base64.NotDigits | acmedns/client.py:64 | `=`, `.`, `"`, newline and `\` are outside both alphabets |
| Jose.Utf8Ascii | acmedns/client.py:92 | `encode('utf8')` of ASCII text is one byte per character, holding its code |
| Jose.Utf8Char | acmedns/client.py:92 | a character encodes to 1 to 4 bytes, and to exactly one iff it is ASCII |
| Hex.ToHex | acmedns/client.py:77 | `"{0:x}".format(n)` is a non-empty string of hex digits denoting n, with no leading zero when n > 0 |
| Hex.LeadingZero | acmedns/client.py:78 | prefixing "0" keeps the digits hexadecimal and keeps their value |
| Hex.EvenDigits | acmedns/client.py:78 | the padded exponent has an even number of hex digits and the same value |
| Hex.UnhexlifyDefined | acmedns/client.py:82-84 | `unhexlify` succeeds iff the length is even and every character is a hex digit |
| Hex.UnhexlifyValue | acmedns/client.py:82-84 | a successful `unhexlify` gives half as many bytes as digits, and they denote the same number |
| Hex.UnhexlifyDigits | acmedns/client.py:82 | an even number of hex digits unhexlifies to bytes denoting the same number |
| Hex.UnhexlifyFirst | acmedns/client.py:82 | the first byte comes from the first two digits |
| Hex.ExponentBytes | acmedns/client.py:77-82 | the JWK exponent bytes always decode, denote the exponent, and have no leading zero byte when it is non-zero |
| Hex.LeadByte | acmedns/client.py:77-82 | digits without a leading zero, padded to even length, give a non-zero first byte |
| Hex.StripLeavesNone | acmedns/client.py:84 | removing the separators leaves no `:` or whitespace character |
| Hex.StripAppend | acmedns/client.py:84 | stripping distributes over concatenation |
| Hex.StripAllSeparators | acmedns/client.py:84 | a run of separators strips to nothing |
| Hex.ModulusBytes | acmedns/client.py:74-84 | whatever separators openssl prints between the modulus bytes, stripping and unhexlifying gives exactly those bytes |
| Hex.ModulusStep | acmedns/client.py:84 | one more byte with its separators adds that byte to the result |
| Hex.UnhexlifyAppendPair | acmedns/client.py:84 | appending two digits appends their byte |
| Jose.JwkOf | acmedns/client.py:74-86 | the JWK exists iff the modulus digits unhexlify; kty is RSA; n decodes to the modulus bytes; e decodes to the exponent with no leading zero byte; by Jose.B64Exact, n and e are exactly the base64url texts of those bytes |
| Jose.CanonicalJwkInjective | acmedns/client.py:87 | the sorted compact JSON of the JWK determines every member, so distinct keys give distinct thumbprint inputs |
| Jose.Thumbprint | acmedns/client.py:87-88 | the thumbprint decodes to the SHA-256 of the UTF-8 canonical JWK (sorted members, no whitespace), so by Jose.B64Exact it is exactly its base64url text; 43 characters for a 32-byte digest; no `.` or `=`, so the key authorization splits cleanly |
| Jose.ProtectedHeader | acmedns/client.py:93-95 | the protected header is the header's members unchanged plus the nonce; the header itself carries no nonce |
| Jose.SigningInputParts | acmedns/client.py:92-98 | the signing input splits at its one `.` into the two encoded parts, which decode back to the serialised JSON |
| AcmeClient.AccountKey | acmedns/client.py:66-88 | an openssl failure is KeyLoadFailed; the key loads iff openssl succeeded, its text matched and the modulus unhexlifies; the header is RS256 with the decoded key; the thumbprint is that of the JWK and decodes to the SHA-256 of its canonical JSON |
| AcmeClient.Client.New | acmedns/client.py:56-59 | a client exists iff its account key loads; it then holds that key's header and thumbprint |
| AcmeClient.Client.LoadAccountKey | acmedns/client.py:66-88 | sets the header and thumbprint from the key; on failure it reports the error and leaves them unchanged |
| AcmeClient.Client.SendSignedRequest | acmedns/client.py:91-109 | the result and the events appended are those of `SignedSpec` |
| AcmeClient.SignedShape | acmedns/client.py:91-109 | a failed nonce fetch or signature appends only the nonce fetch; success appends the fetch and one POST, whose protected header carries that nonce |
| AcmeClient.SignedRequestNonced | acmedns/client.py:91-109 | a signed request sends at most one request, right after fetching the nonce it carries |
| AcmeClient.SignedEnvelope | acmedns/client.py:91-109 | the POSTed envelope carries the header without a nonce, a protected header with it, and a signing input that splits into the two parts; the parts decode to the serialised JSON; the signature decodes to the key's signature of that input |
| AcmeClient.EnvelopeFacts | acmedns/client.py:101-104 | every field of an envelope decodes back to what was put in it |
| AcmeClient.SignedQuiet | acmedns/client.py:91-109 | a signed request never calls the adapter, and it sends one request iff it got a signature |
| AcmeClient.Client.RegAccount | acmedns/client.py:111-123 | the result and the events are those of `RegSpec` |
| AcmeClient.RegistrationOutcome | acmedns/client.py:111-123 | registration succeeds iff new-reg was answered 201 or 409; 201 alone means newly registered; the payload decodes to the new-reg JSON |
| AcmeClient.CheckSpec | acmedns/client.py:135-146 | one TXT query of `_acme-challenge.<domain>`; records found means true; no records or a DNS exception means false; any other exception means an error |
| AcmeClient.Client.CheckDomain | acmedns/client.py:135-146 | the result and the event are those of `CheckSpec` |
| AcmeClient.Client.WaitChallengeDeployed | acmedns/client.py:125-133 | the loop's result and events are those of `WaitFrom` from retry 0 |
| AcmeClient.WaitShape | acmedns/client.py:125-133 | at most 25 queries, 5 s of sleep between them; every query but the last was a miss; true iff the last found records; an error iff it raised; false only after all 25 |
| AcmeClient.PollingSleeps | acmedns/client.py:129-132 | a wait that made n queries slept 5 * (n - 1) seconds in all |
| AcmeClient.PollingFacts | acmedns/client.py:129-132 | the wait's events are queries and 5-second sleeps, ending with the last query |
| AcmeClient.WaitQuiet | acmedns/client.py:125-133 | the wait only queries and sleeps; a true result means some query found the record |
| AcmeClient.Client.PollChallenge | acmedns/client.py:222-239 | the loop's result and events are those of `PollFrom` |
| AcmeClient.PollShape | acmedns/client.py:222-239 | every reply but the last was "pending"; success iff the last was "valid"; a failed GET or another status is an error; the bound ends it only after that many "pending" replies |
| AcmeClient.PollQuiet | acmedns/client.py:222-239 | the poll sends no signed request and no adapter call; success ends with the GET that said "valid" |
| AcmeClient.PollEventsFacts | acmedns/client.py:222-239 | the poll's events are GETs and 1-second sleeps; it starts with a GET and ends with the last non-pending GET |
| AcmeRules.TokenCharIsDigit | acmedns/client.py:196 | the characters the token keeps are exactly the base64url alphabet |
| AcmeRules.SanitizeToken | acmedns/client.py:196 | same length; every character outside `[A-Za-z0-9_-]` becomes `_` and the others are kept |
| AcmeRules.SanitizeIdempotent | acmedns/client.py:196 | sanitising twice is sanitising once |
| AcmeRules.SanitizeFixed | acmedns/client.py:196 | a token is unchanged iff it is already base64url text |
| AcmeRules.KeyAuthorizationParts | acmedns/client.py:197 | the key authorization splits at its `.` back into the sanitised token and the thumbprint |
| AcmeRules.DnsToken | acmedns/client.py:198 | the TXT value decodes to the SHA-256 of the key authorization, so by Jose.B64Exact it is exactly its base64url text; a 32-byte digest gives 43 characters with no `=` |
| AcmeRules.FirstDns01 | acmedns/client.py:195 | the first challenge of type dns-01; none (the IndexError) iff there is none |
| AcmeRules.SplitDomain | acmedns/client.py:200-206 | a domain without `.` is an error (the IndexError); otherwise zone and record name are defined |
| AcmeRules.SplitOnDot | acmedns/client.py:200 | `split(".")` gives one piece iff there is no `.` |
| AcmeRules.SplitDomainLabels | acmedns/client.py:200-206 | two labels: the domain and `_acme-challenge`; more: labels 1 and 2 as the zone and `_acme-challenge.` + label 0 |
| AcmeRules.RecordNameMatchesQuery | acmedns/client.py:138 | the deployed record is the queried name `_acme-challenge.<domain>` iff the domain has two or three labels |
| AcmeRules.RecordName | acmedns/client.py:200-208 | the same, for the zone and record name of either branch |
| AcmeRules.CertFileNameReplacesExtension | acmedns/client.py:149-150 | the last extension is replaced by `crt` |
| AcmeRules.CertFileNameAppends | acmedns/client.py:149-150 | a name without `.` gets `.crt` appended |
| AcmeRules.DomainSetMembers | acmedns/client.py:172-180 | a domain is in the set iff it is the CN or follows `DNS:` in an entry of the SAN line |
| AcmeRules.ExtractDomains | acmedns/client.py:172-180 | the loop over the SAN entries collects exactly that set |
| AcmeRules.SanDomainsSnoc | acmedns/client.py:178-180 | each SAN entry adds its domain iff it starts with `DNS:` |
| AcmeRules.DomainSetExample | acmedns/client.py:172-180 | a CN repeated in the SAN line, a second host and an IP address give the two host names |
| AcmeRules.PemRoundTrip | acmedns/client.py:255-256 | the PEM armour decodes back to the certificate bytes |
| AcmeRules.PemLines | acmedns/client.py:255-256 | between the armour lines: the Base 64 text in lines of 64 characters, the last of 1 to 64 |
| AcmeRules.NoNewlineInChunks | acmedns/client.py:256 | no wrapped line contains a newline |
| Text.Split | acmedns/client.py:178 | joining the pieces with the separator gives the string back; no piece contains the separator |
| Text.SplitJoin | acmedns/client.py:200 | splitting a join recovers the pieces when none holds the separator |
| Text.Chunks | acmedns/client.py:256 | `textwrap.wrap` of text without spaces: the pieces concatenate to the text; all have the width but the last, which has 1 to width characters |
| Text.RemoveJoin | acmedns/client.py:256 | removing the newlines of the joined lines gives their concatenation |
| Text.LastIndexOf | acmedns/client.py:149 | the position of the last occurrence; none iff the character is absent |
| Text.RPartition | acmedns/config.py:78 | with a separator: head + separator + tail, and the tail has none; without one: ("", s) |
| Text.Upper | acmedns/config.py:128 | `upper()` leaves no ASCII lower-case letter and keeps all other characters; lowering the result equals lowering the input, so each lower-case letter became its own upper-case form |
| AcmeClient.Client.RequestChallenge | acmedns/client.py:187-206 | the result and the events are those of `AuthorizeSpec` |
| AcmeClient.AuthorizationFacts | acmedns/client.py:187-206 | new-authz was answered 201 and the first dns-01 challenge was taken; the key authorization splits into the sanitised token and the thumbprint; the TXT value decodes to its digest; zone and record name come from the domain |
| AcmeClient.AuthorizeFacts | acmedns/client.py:187-193 | the new-authz step sends one request and calls no adapter |
| AcmeClient.Client.AwaitValidation | acmedns/client.py:209-239 | the result and the events are those of `GuardedSpec` |
| AcmeClient.GuardedFacts | acmedns/client.py:209-239 | no adapter calls; at most one request, the trigger; every request sits after (at a later position than) a TXT query that found the record; verified ends with the GET that said "valid" |
| AcmeClient.Client.VerifyDomain | acmedns/client.py:183-241 | the result and the events are those of `ProveSpec` |
| AcmeClient.ProveCleanup | acmedns/client.py:208-241 | each deployed record is deleted right after the guarded part, the deletion is the flow's last event, and a failed deletion fails the flow; every request carries its nonce |
| AcmeClient.ProveNotify | acmedns/client.py:209-239 | at most two requests; any request after the first (the trigger after new-authz) sits after a TXT query that found the record; not propagated means only new-authz; verified means the "valid" GET came just before the deletion |
| AcmeClient.Client.VerifyDomains | acmedns/client.py:183 | the loop over the set equals `DomainsSpec` over some enumeration of the set |
| AcmeClient.DomainsStop | acmedns/client.py:183 | once a domain fails, later domains change nothing |
| AcmeClient.DomainsFacts | acmedns/client.py:183-241 | over all domains every deployment is followed by its deletion, and every request carries its nonce |
| AcmeClient.Client.Issue | acmedns/client.py:165-261 | the result and the events are those of `IssueSpec` for an enumeration of the CSR's domains |
| AcmeClient.IssueTidy | acmedns/client.py:165-261 | an issuance leaves no TXT record behind and every request carries its nonce |
| AcmeClient.IssueWrites | acmedns/client.py:243-261 | a successful issuance ends with the 201 new-cert reply and the write of its PEM to the certificate path, which decodes to the returned certificate |
| AcmeClient.Client.Sign | acmedns/client.py:148-163 | as written: only the certificate path and the validity gate, and a return |
| AcmeClient.SignSkipsRenewal | acmedns/client.py:148-163 | as written, a missing or expiring certificate with a readable CSR still appends no event, while the intended flow appends some |
| AcmeClient.Client.SignAndIssue | acmedns/client.py:148-261 | the intended `sign`: result and events are those of `SignAndIssueSpec` |
| AcmeClient.SignAndIssueRenews | acmedns/client.py:148-261 | still valid iff nothing happens; no record left behind; a renewal writes the certificate to the gate's path |
| Paths.Join | acmedns/config.py:108 | an absolute second part wins; otherwise the parts are joined with one `/`, added only when the first part is non-empty and does not already end in `/` |
| Paths.AbsPath | acmedns/client.py:151 | an absolute path is kept; a relative one is appended to the working directory with one `/` between them; relative to an absolute working directory the result is absolute |
| Paths.DirnameJoin | acmedns/config.py:68 | the directory of a file joined onto a directory is that directory |
| Config.DefaultConfigPath | acmedns/config.py:50-54 | three candidates: `/etc/acmedns.conf`, then `.acmedns.conf` in the home directory, then `acmedns.conf` in the working directory; all absolute when home and working directory are |
| Config.ReadFiles | acmedns/config.py:67 | the candidates at strictly increasing positions that are exactly the readable ones, so the readable candidates in order; empty iff none is readable; the first is the first readable candidate |
| Config.ConfigurationManager.Load | acmedns/config.py:61-69 | fails iff no candidate is readable; otherwise the configuration directory is that of the first readable file, and `certs_path` is looked up |
| Config.ConfigurationManager.FromFilename | acmedns/config.py:71-73 | a manager for one file, failing iff it cannot be read |
| Config.Find | acmedns/config.py:134 | the value of the first item with that option name; none iff no item has it |
| Config.Get | acmedns/config.py:116-139 | the environment variable wins when set; otherwise the option in the section; None iff neither has it; a missing section is not an error |
| Config.ConfigurationManager.GetFile | acmedns/config.py:104-114 | the first existing candidate among the name, `certs_path`/name (only when set) and `config_dir`/name; "File not found" iff none exists |
| Config.ConfigurationManager.GetDomains | acmedns/config.py:97-102 | a missing section is an error; otherwise one resolved path per item, in order, or the error of the first item that does not resolve |
| Config.SplitClassPath | acmedns/config.py:76-78 | module + "." + class is the path, and the class name holds no dot |
| World.World.FetchNonce | acmedns/client.py:94 | the nonce is the oracle's answer, recorded in the trace |
| World.World.Post | acmedns/client.py:105-109 | the reply (code, absent for an error without one, and body) is the oracle's answer, recorded in the trace |
| World.World.Deploy | acmedns/client.py:208 | the adapter's record, or a recorded failure |
| World.World.Delete | acmedns/client.py:241 | the adapter's deletion, recorded with whether it raised |

## Left out

- openssl, the network, DNS, the adapter, the clock and the file system are oracles. Their answers are parameters, so the model says nothing about their own behaviour.
- RSA signing, SHA-256 and `json.dumps` are oracle functions. `json.loads` of the challenge list is an oracle as well, and the regular expressions over openssl's text are modelled by openssl's parsed view (`KeyText`, `CsrText`).
- The challenge poll at client.py:223-239 has no bound. The model bounds it with a `fuel` parameter, and running out is the error `StillPending`.
- `AcmeClient.Client.VerifyDomains`: Python's set iteration order is unspecified. The model proves the loop equal to `DomainsSpec` over some enumeration of the set, which it returns as a ghost value.
- `os.path.realpath`, `expanduser` and `normpath` are left out. Paths are joined without normalisation and symbolic links are not resolved.
- The model follows Python 2, as the code base does (manual_adapter.py uses the Python 2 `print` statement). There `keyauthorization` is an ASCII byte string, and `hashlib.sha256(keyauthorization)` at client.py:198 hashes its bytes; the model hashes its UTF-8 encoding, which is the same bytes. Under Python 3 that call raises `TypeError`.
- `upper()` and `lower()` act on ASCII letters only. Non-ASCII case mappings are not modelled.
- Ini: the parsed configuration allows an option name twice in a section, which RawConfigParser never produces (it keeps one value per option). On such input `Find` takes the first value and `GetDomains` resolves every duplicate; the model does not restrict its inputs to what the parser can return.
- Config: RawConfigParser's file reading and the merging of several files are not modelled. The parsed result is given as a parameter. The `DEFAULT` section's fallback and its extra items are not modelled.
- `__import_class_from_string`: only the split of the class path is modelled. `import_module`, `getattr`, `get_adapter` and `get_config` are reflection or library calls.
- Logging is left out, and so are the adapter implementations and the command line in acmedns.py.
- A failing write of the certificate file is not modelled. The write always succeeds.
- Where the code and its informal description disagree, the model follows the code:
  - when the record does not propagate, the flow skips the CA notification and raises no error;
  - the wait makes 25 checks (one plus 24 retries), not 24;
  - a raising `delete_challenge` inside the `finally` replaces the flow's outcome with its own error, instead of being logged;
  - `get_config` passes three arguments to the four-argument `ClientConfig` (config.py:87 against client.py:47). It is not modelled.

## Findings

| source | as written | input that shows it | evidently intended | confidence | as-written member | corrected member |
|---|---|---|---|---|---|---|
| acmedns/client.py:163 | an unconditional `return` after the validity check makes lines 165-261 unreachable, so `sign` never issues a certificate | a CSR whose certificate file does not exist, and which openssl reads | return only when the certificate is still valid, and otherwise parse the CSR, prove control of its domains and write the certificate | not executed | AcmeClient.SignSkipsRenewal | AcmeClient.SignAndIssueRenews |
