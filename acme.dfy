/**
 * The pure rules of the client's dns-01 flow: the challenge token and key
 * authorization (sections 8.1 and 8.4 of RFC 8555), the TXT record name
 * and value, the set of domains named by a CSR, the certificate file name
 * and the PEM armour of the issued certificate (section 2 of RFC 7468).
 */
module AcmeRules {
  import opened Wrappers
  import opened Base64
  import Text
  import Jose

  /** The characters a token may keep: [A-Za-z0-9_-]. */
  predicate IsTokenChar(c: char) {
    'A' <= c <= 'Z' || 'a' <= c <= 'z' || '0' <= c <= '9' || c == '_' || c == '-'
  }

  /** The token characters are exactly the base64url alphabet of section 5 of RFC 4648. */
  lemma TokenCharIsDigit(c: char)
    ensures IsTokenChar(c) <==> IsDigit(UrlSafe, c)
  {
  }

  /** The challenge token with every character outside [A-Za-z0-9_-] replaced by '_'. */
  function SanitizeToken(token: string): (r: string)
    ensures |r| == |token|
    ensures forall i :: 0 <= i < |r| ==> IsTokenChar(r[i])
    ensures forall i :: 0 <= i < |r| && IsTokenChar(token[i]) ==> r[i] == token[i]
    ensures forall i :: 0 <= i < |r| && !IsTokenChar(token[i]) ==> r[i] == '_'
  {
    seq(|token|, i requires 0 <= i < |token| => if IsTokenChar(token[i]) then token[i] else '_')
  }

  /** Sanitising twice is sanitising once. */
  lemma SanitizeIdempotent(token: string)
    ensures SanitizeToken(SanitizeToken(token)) == SanitizeToken(token)
  {
  }

  /** A token is left as it is exactly when it is already base64url text. */
  lemma SanitizeFixed(token: string)
    ensures SanitizeToken(token) == token <==> forall i :: 0 <= i < |token| ==> IsDigit(UrlSafe, token[i])
  {
    if SanitizeToken(token) == token {
      forall i | 0 <= i < |token| ensures IsDigit(UrlSafe, token[i]) {
        TokenCharIsDigit(token[i]);
      }
    } else {
      var r := SanitizeToken(token);
      var i :| 0 <= i < |token| && r[i] != token[i];
      TokenCharIsDigit(token[i]);
    }
  }

  /** The key authorization of section 8.1 of RFC 8555: token "." thumbprint. */
  function KeyAuthorization(token: string, thumbprint: string): string
  {
    SanitizeToken(token) + "." + thumbprint
  }

  /**
   * The key authorization splits at its '.' back into the sanitised token
   * and the thumbprint, since neither of them holds a '.'.
   */
  lemma KeyAuthorizationParts(token: string, thumbprint: string)
    requires '.' !in thumbprint
    ensures Text.Split(KeyAuthorization(token, thumbprint), ".") == [SanitizeToken(token), thumbprint]
  {
    var t := SanitizeToken(token);
    assert '.' !in t by {
      forall i | 0 <= i < |t| ensures t[i] != '.' {
        assert IsTokenChar(t[i]);
      }
    }
    assert Text.Join([t, thumbprint], ".") == KeyAuthorization(token, thumbprint);
    Text.SplitJoin([t, thumbprint], ".");
  }

  /**
   * The TXT record value of section 8.4 of RFC 8555: the base64url digest
   * of the key authorization. It decodes to the digest, and a 32-byte
   * SHA-256 digest gives 43 characters.
   */
  function DnsToken(keyAuthorization: string, sha256: seq<byte> -> seq<byte>): (r: string)
    ensures DecodeUnpadded(UrlSafe, r) == Some(sha256(Jose.Utf8(keyAuthorization)))
    ensures |sha256(Jose.Utf8(keyAuthorization))| == 32 ==> |r| == 43
    ensures '.' !in r && '=' !in r
  {
    Jose.B64Plain(sha256(Jose.Utf8(keyAuthorization)));
    UnpaddedLength(UrlSafe, sha256(Jose.Utf8(keyAuthorization)));
    Jose.B64(sha256(Jose.Utf8(keyAuthorization)))
  }

  /** Where the TXT record goes: the zone (base domain) and the name inside it. */
  datatype ChallengeName = ChallengeName(base: string, sub: string)

  /**
   * The zone and record name for a domain, from its '.'-separated labels:
   * two labels give the whole domain and "_acme-challenge"; more give
   * labels 1 and 2 as the zone and "_acme-challenge." + label 0, dropping
   * any further label. A domain without '.' has fewer than two labels and
   * is an error.
   */
  function SplitDomain(domain: string): (r: Option<ChallengeName>)
    ensures r.None? <==> '.' !in domain
  {
    var ndd := Text.Split(domain, ".");
    SplitOnDot(domain);
    if |ndd| == 2 then Some(ChallengeName(ndd[0] + "." + ndd[1], "_acme-challenge"))
    else if |ndd| >= 3 then Some(ChallengeName(ndd[1] + "." + ndd[2], "_acme-challenge." + ndd[0]))
    else None
  }

  /** A domain splits into several labels exactly when it holds a '.'. */
  lemma SplitOnDot(domain: string)
    ensures |Text.Split(domain, ".")| == 1 <==> '.' !in domain
  {
    if '.' in domain {
      Text.CharContains(domain, '.');
    } else {
      Text.NotContainsHead(domain, ".");
    }
  }

  predicate Labels(labels: seq<string>) {
    |labels| >= 2 && forall k :: 0 <= k < |labels| ==> '.' !in labels[k]
  }

  /** SplitDomain on the domain with the given labels. */
  lemma SplitDomainLabels(labels: seq<string>)
    requires Labels(labels)
    ensures SplitDomain(Text.Join(labels, ".")) ==
      if |labels| == 2 then Some(ChallengeName(labels[0] + "." + labels[1], "_acme-challenge"))
      else Some(ChallengeName(labels[1] + "." + labels[2], "_acme-challenge." + labels[0]))
  {
    Text.SplitJoin(labels, ".");
  }

  /**
   * The record the adapter deploys is "_acme-challenge." + domain, the
   * name the propagation check queries, exactly when the domain has two
   * or three labels.
   */
  lemma RecordNameMatchesQuery(labels: seq<string>)
    requires Labels(labels)
    ensures var n := SplitDomain(Text.Join(labels, ".")).value;
            n.sub + "." + n.base == "_acme-challenge." + Text.Join(labels, ".") <==> |labels| <= 3
  {
    SplitDomainLabels(labels);
    var n := SplitDomain(Text.Join(labels, ".")).value;
    RecordName(labels, n.sub, n.base);
  }

  lemma RecordName(labels: seq<string>, sub: string, base: string)
    requires |labels| >= 2
    requires |labels| == 2 ==> sub == "_acme-challenge" && base == labels[0] + "." + labels[1]
    requires |labels| > 2 ==> sub == "_acme-challenge." + labels[0] && base == labels[1] + "." + labels[2]
    ensures sub + "." + base == "_acme-challenge." + Text.Join(labels, ".") <==> |labels| <= 3
  {
    var l0, l1 := labels[0], labels[1];
    var j1 := Text.Join(labels[1..], ".");
    assert Text.Join(labels, ".") == l0 + "." + j1;
    if |labels| == 2 {
      assert j1 == l1;
    } else {
      var l2, j2 := labels[2], Text.Join(labels[2..], ".");
      assert labels[1..][1..] == labels[2..];
      assert j1 == l1 + "." + j2;
      if |labels| == 3 {
        assert j2 == l2;
      } else {
        assert labels[2..][1..] == labels[3..];
        assert j2 == l2 + "." + Text.Join(labels[3..], ".");
        assert |j1| >= |l1| + |l2| + 2;
      }
    }
  }

  /** Python's csr_file.rsplit(".", 1)[0] + ".crt". */
  function CertFileName(csrFile: string): string
  {
    Text.BeforeLast(csrFile, '.') + ".crt"
  }

  /** The extension after the last '.' is replaced by "crt". */
  lemma CertFileNameReplacesExtension(stem: string, ext: string)
    requires '.' !in ext
    ensures CertFileName(stem + "." + ext) == stem + ".crt"
  {
    Text.BeforeLastOf(stem, '.', ext);
  }

  /** A name without '.' gets ".crt" appended. */
  lemma CertFileNameAppends(csrFile: string)
    requires '.' !in csrFile
    ensures CertFileName(csrFile) == csrFile + ".crt"
  {
  }

  /** A challenge offered by the CA, as json.loads gives it. */
  datatype Challenge = Challenge(kind: string, token: string, uri: string)

  /** The first challenge of type "dns-01"; None when there is none (the code's IndexError). */
  function FirstDns01(cs: seq<Challenge>): (r: Option<Challenge>)
    ensures r.None? <==> forall i :: 0 <= i < |cs| ==> cs[i].kind != "dns-01"
    ensures r.Some? ==> exists i :: 0 <= i < |cs| && cs[i] == r.value && r.value.kind == "dns-01" &&
                                   forall j :: 0 <= j < i ==> cs[j].kind != "dns-01"
  {
    if |cs| == 0 then None
    else if cs[0].kind == "dns-01" then Some(cs[0])
    else
      var r := FirstDns01(cs[1..]);
      FirstDns01Shift(cs, r);
      r
  }

  lemma FirstDns01Shift(cs: seq<Challenge>, r: Option<Challenge>)
    requires |cs| > 0 && cs[0].kind != "dns-01"
    requires r.Some? ==> exists i :: 0 <= i < |cs[1..]| && cs[1..][i] == r.value && r.value.kind == "dns-01" &&
                                   forall j :: 0 <= j < i ==> cs[1..][j].kind != "dns-01"
    ensures r.Some? ==> exists i :: 0 <= i < |cs| && cs[i] == r.value && r.value.kind == "dns-01" &&
                                   forall j :: 0 <= j < i ==> cs[j].kind != "dns-01"
  {
    if r.Some? {
      var i :| 0 <= i < |cs[1..]| && cs[1..][i] == r.value && r.value.kind == "dns-01" &&
               forall j :: 0 <= j < i ==> cs[1..][j].kind != "dns-01";
      assert cs[i + 1] == r.value;
      forall j | 0 <= j < i + 1 ensures cs[j].kind != "dns-01" {
        if j > 0 {
          assert cs[j] == cs[1..][j - 1];
        }
      }
    }
  }

  /** The domains named by the "DNS:" entries of a SAN list. */
  function SanDomains(entries: seq<string>): set<string>
  {
    set k | 0 <= k < |entries| && Text.StartsWith(entries[k], "DNS:") :: entries[k][4..]
  }

  /**
   * The domains a CSR names: its common name, if there is one, and every
   * ", "-separated entry of its SAN line that starts with "DNS:", without
   * that prefix.
   */
  function DomainSet(cn: Option<string>, sans: Option<string>): set<string>
  {
    (if cn.Some? then {cn.value} else {}) + (if sans.Some? then SanDomains(Text.Split(sans.value, ", ")) else {})
  }

  /** A domain is named by the CSR iff it is the CN or it follows "DNS:" in a SAN entry. */
  lemma DomainSetMembers(cn: Option<string>, sans: Option<string>, d: string)
    ensures d in DomainSet(cn, sans) <==>
              cn == Some(d) || (sans.Some? && "DNS:" + d in Text.Split(sans.value, ", "))
  {
    if sans.Some? {
      var entries := Text.Split(sans.value, ", ");
      if d in SanDomains(entries) {
        var k :| 0 <= k < |entries| && Text.StartsWith(entries[k], "DNS:") && entries[k][4..] == d;
        assert entries[k] == entries[k][..4] + entries[k][4..];
      }
      if "DNS:" + d in entries {
        var k :| 0 <= k < |entries| && entries[k] == "DNS:" + d;
        assert entries[k][4..] == d;
      }
    }
  }

  lemma SanDomainsSnoc(entries: seq<string>, i: nat)
    requires i < |entries|
    ensures SanDomains(entries[..i + 1]) ==
              SanDomains(entries[..i]) + (if Text.StartsWith(entries[i], "DNS:") then {entries[i][4..]} else {})
  {
    var xs, ys := entries[..i + 1], entries[..i];
    assert forall k :: 0 <= k < i ==> xs[k] == ys[k];
    assert xs[i] == entries[i];
  }

  /** Collects the domain set entry by entry, as the client's loop over the SAN list does. */
  method ExtractDomains(cn: Option<string>, sans: Option<string>) returns (domains: set<string>)
    ensures domains == DomainSet(cn, sans)
  {
    domains := {};
    if cn.Some? {
      domains := domains + {cn.value};
    }
    var fromCn := domains;
    if sans.Some? {
      var entries := Text.Split(sans.value, ", ");
      for i := 0 to |entries|
        invariant domains == fromCn + SanDomains(entries[..i])
      {
        SanDomainsSnoc(entries, i);
        if Text.StartsWith(entries[i], "DNS:") {
          domains := domains + {entries[i][4..]};
        }
      }
      assert entries[..|entries|] == entries;
    }
  }

  /** A CSR whose SAN line names the CN again, a second host and an IP address. */
  lemma DomainSetExample()
    ensures DomainSet(Some("example.com"),
                      Some("DNS:example.com" + ", " + ("DNS:www.example.com" + ", " + "IP Address:192.0.2.1")))
              == {"example.com", "www.example.com"}
  {
    var entries := ["DNS:example.com", "DNS:www.example.com", "IP Address:192.0.2.1"];
    ExampleSplit(entries);
    ExampleSans(entries);
  }

  lemma ExampleSplit(entries: seq<string>)
    requires entries == ["DNS:example.com", "DNS:www.example.com", "IP Address:192.0.2.1"]
    ensures Text.Split("DNS:example.com" + ", " + ("DNS:www.example.com" + ", " + "IP Address:192.0.2.1"), ", ")
              == entries
  {
    assert Text.Join(entries[2..], ", ") == entries[2];
    assert Text.Join(entries[1..], ", ") == entries[1] + ", " + entries[2];
    Text.SplitJoin(entries, ", ");
  }

  lemma ExampleSans(entries: seq<string>)
    requires entries == ["DNS:example.com", "DNS:www.example.com", "IP Address:192.0.2.1"]
    ensures SanDomains(entries) == {"example.com", "www.example.com"}
  {
    assert Text.StartsWith(entries[0], "DNS:") && entries[0][4..] == "example.com";
    assert Text.StartsWith(entries[1], "DNS:") && entries[1][4..] == "www.example.com";
    assert entries[2][..4] == "IP A";
    assert !Text.StartsWith(entries[2], "DNS:");
    var s := SanDomains(entries);
    assert "example.com" in s && "www.example.com" in s;
  }

  const PemHeader := "-----BEGIN CERTIFICATE-----\n"
  const PemFooter := "\n-----END CERTIFICATE-----\n"

  /** The standard Base 64 text of the certificate, wrapped at 64 columns. */
  function PemBody(der: seq<byte>): string
  {
    Text.Join(Text.Chunks(Encode(Standard, der), 64), "\n")
  }

  /** The certificate in PEM armour (section 2 of RFC 7468). */
  function Pem(der: seq<byte>): string
  {
    PemHeader + PemBody(der) + PemFooter
  }

  /** Reads PEM armour back: strips header and footer, joins the lines, decodes. */
  function PemDecode(text: string): Option<seq<byte>>
  {
    if |text| >= |PemHeader| + |PemFooter| && text[..|PemHeader|] == PemHeader &&
       text[|text| - |PemFooter|..] == PemFooter
    then Decode(Standard, Text.Remove(text[|PemHeader|..|text| - |PemFooter|], '\n'))
    else None
  }

  lemma InConcat(xs: seq<string>, k: nat, c: char)
    requires k < |xs| && c in xs[k]
    ensures c in Text.Concat(xs)
  {
    if k > 0 {
      InConcat(xs[1..], k - 1, c);
    }
  }

  lemma NoNewlineInChunks(der: seq<byte>)
    ensures forall k :: 0 <= k < |Text.Chunks(Encode(Standard, der), 64)| ==>
              '\n' !in Text.Chunks(Encode(Standard, der), 64)[k]
  {
    var e := Encode(Standard, der);
    var u := EncodeUnpadded(Standard, der);
    NotDigits(Standard);
    UnpaddedDigits(Standard, der);
    assert '\n' !in u;
    assert '\n' !in Padding(|der|);
    assert '\n' !in e;
    var xs := Text.Chunks(e, 64);
    forall k | 0 <= k < |xs| ensures '\n' !in xs[k] {
      if '\n' in xs[k] {
        InConcat(xs, k, '\n');
      }
    }
  }

  /** The PEM armour decodes back to the certificate. */
  lemma PemRoundTrip(der: seq<byte>)
    ensures PemDecode(Pem(der)) == Some(der)
  {
    var body := PemBody(der);
    var text := Pem(der);
    assert text[..|PemHeader|] == PemHeader;
    assert text[|text| - |PemFooter|..] == PemFooter;
    assert text[|PemHeader|..|text| - |PemFooter|] == body;
    NoNewlineInChunks(der);
    Text.RemoveJoin(Text.Chunks(Encode(Standard, der), 64), '\n');
    DecodeEncode(Standard, der);
  }

  /**
   * Between the armour lines, the text is the Base 64 encoding in lines
   * of exactly 64 characters, the last one of 1 to 64.
   */
  lemma PemLines(der: seq<byte>)
    requires |der| > 0
    ensures var lines := Text.Split(PemBody(der), "\n");
            Text.Concat(lines) == Encode(Standard, der) &&
            (forall k :: 0 <= k < |lines| ==> 0 < |lines[k]| <= 64) &&
            (forall k :: 0 <= k < |lines| - 1 ==> |lines[k]| == 64)
  {
    var xs := Text.Chunks(Encode(Standard, der), 64);
    NoNewlineInChunks(der);
    assert |Text.Concat(xs)| > 0;
    Text.SplitJoin(xs, "\n");
  }
}
