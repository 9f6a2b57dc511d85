/**
 * The ACME client: the account key it signs with, signed requests to the
 * CA, account registration, the DNS propagation wait, the dns-01 proof of
 * control for one domain and the issuance of a certificate for a CSR.
 *
 * Each operation that talks to the world is a method of `Client` and is
 * proved equal to a specification function from the oracles and the trace
 * before the call to a `Run`: the result and the events appended. The
 * lemmas state what those functions promise.
 */
module AcmeClient {
  import opened Wrappers
  import opened Base64
  import opened Jose
  import opened AcmeRules
  import opened World
  import Text
  import Hex
  import Paths
  import opened Seqs

  /** The client's settings: directory URL, account key file, contact e-mail and the renewal margin. */
  datatype ClientConfig = ClientConfig(acmeUrl: string, accountKey: string, contactEmail: string, checkend: string)

  /** Why a run stopped: each is an exception the client raises or lets through. */
  datatype Error =
    | KeyLoadFailed
    | KeyParseFailed
    | NonceUnavailable
    | SigningFailed
    | RegistrationRejected(code: Option<int>)
    | UnexpectedDnsError
    | CsrLoadFailed
    | ChallengeRequestRejected(code: Option<int>)
    | MalformedChallenges
    | NoDns01Challenge
    | BadDomain(domain: string)
    | DeployRaised
    | DeleteRaised
    | TriggerRejected(code: Option<int>)
    | ChallengeCheckFailed
    | ChallengeInvalid(status: string)
    | StillPending
    | CertificateRejected(code: Option<int>)

  /** What a specification function says an operation does: its result and the events it appends. */
  datatype Run<T> = Run(result: Result<T, Error>, events: seq<Event>)

  // ----- The account key -----

  /**
   * The JWS header and the JWK thumbprint from openssl's view of the
   * account key. A nonzero exit code, text without the modulus and
   * exponent, or modulus digits that do not unhexlify are errors.
   */
  function AccountKey(key: KeyText, sha256: seq<byte> -> seq<byte>): (r: Result<(Header, string), Error>)
    ensures key.exitCode != 0 ==> r == Err(KeyLoadFailed)
    ensures r.Ok? <==> key.exitCode == 0 && key.fields.Some? &&
                       Hex.Unhexlify(Hex.StripSeparators(key.fields.value.0)).Some?
    ensures r.Ok? ==> r.value.0.alg == "RS256" && r.value.0.jwk.kty == "RSA" &&
                      DecodeUnpadded(UrlSafe, r.value.0.jwk.n) == Hex.Unhexlify(Hex.StripSeparators(key.fields.value.0)) &&
                      DecodeUnpadded(UrlSafe, r.value.0.jwk.e).Some? &&
                      Hex.BytesValue(DecodeUnpadded(UrlSafe, r.value.0.jwk.e).value) == key.fields.value.1
    ensures r.Ok? ==> r.value.1 == Thumbprint(r.value.0.jwk, sha256) && '.' !in r.value.1 &&
                      DecodeUnpadded(UrlSafe, r.value.1) == Some(sha256(Utf8(CanonicalJwk(r.value.0.jwk))))
  {
    if key.exitCode != 0 then Err(KeyLoadFailed)
    else if key.fields.None? then Err(KeyParseFailed)
    else match JwkOf(key.fields.value.0, key.fields.value.1)
      case None => Err(KeyParseFailed)
      case Some(jwk) => Ok((Header("RS256", jwk), Thumbprint(jwk, sha256)))
  }

  // ----- Request payloads -----

  const Agreement := "https://letsencrypt.org/documents/LE-SA-v1.0.1-July-27-2015.pdf"

  function RegPayload(email: string): Json
  {
    JObj([("resource", JStr("new-reg")), ("contact", JList([JStr("mailto:" + email)])), ("agreement", JStr(Agreement))])
  }

  function NewAuthzPayload(domain: string): Json
  {
    JObj([("resource", JStr("new-authz")), ("identifier", JObj([("type", JStr("dns")), ("value", JStr(domain))]))])
  }

  function ChallengePayload(keyAuthorization: string): Json
  {
    JObj([("resource", JStr("challenge")), ("keyAuthorization", JStr(keyAuthorization))])
  }

  function NewCertPayload(csr64: string): Json
  {
    JObj([("resource", JStr("new-cert")), ("csr", JStr(csr64))])
  }

  // ----- Signed requests -----

  /**
   * A signed POST: fetch a nonce from the directory, put it in a copy of
   * the header, sign protected64 "." payload64 with the account key, and
   * POST the envelope. A failed nonce fetch or signature stops the run
   * before anything is POSTed; any reply, error or not, is the result.
   */
  function SignedSpec(o: Oracles, t: seq<Event>, c: ClientConfig, h: Header, url: string, payload: Json): Run<Reply>
  {
    var directory := c.acmeUrl + "/directory";
    var nonce := o.nonce(t, directory);
    var fetched := NonceFetched(directory, nonce);
    if nonce.None? then Run(Err(NonceUnavailable), [fetched])
    else
      match Seal(o, c, h, nonce.value, payload)
      case None => Run(Err(SigningFailed), [fetched])
      case Some(envelope) =>
        var reply := o.post(t + [fetched], url, envelope);
        Run(Ok(reply), [fetched, Posted(url, envelope, reply)])
  }

  /**
   * The envelope of a payload: the header, the protected header with the
   * nonce, and the account key's signature of protected64 "." payload64;
   * None when openssl fails to sign.
   */
  function Seal(o: Oracles, c: ClientConfig, h: Header, nonce: string, payload: Json): Option<Envelope>
  {
    var protected64 := Encoded(ProtectedJson(h, nonce), o.dumps);
    var payload64 := Encoded(payload, o.dumps);
    match o.sign(c.accountKey, Utf8(SigningInput(protected64, payload64)))
    case None => None
    case Some(signature) => Some(Envelope(h, protected64, payload64, B64(signature)))
  }

  /** Only the nonce fetch and the POST; at most one request, sent with the nonce just fetched. */
  predicate CaOnly(t: seq<Event>)
  {
    forall i :: 0 <= i < |t| ==> t[i].NonceFetched? || t[i].Posted?
  }

  /** The events of a signed request: the nonce fetch and, when a signature was made, the POST. */
  lemma SignedShape(o: Oracles, t: seq<Event>, c: ClientConfig, h: Header, url: string, payload: Json)
    ensures var s := SignedSpec(o, t, c, h, url, payload);
            var directory := c.acmeUrl + "/directory";
            var nonce := o.nonce(t, directory);
            (s.result.Err? ==> s.events == [NonceFetched(directory, nonce)]) &&
            (s.result.Ok? ==> nonce.Some? && |s.events| == 2 && s.events[0] == NonceFetched(directory, nonce) &&
                              s.events[1] == Posted(url, s.events[1].envelope, s.result.value) &&
                              s.events[1].envelope.header == h &&
                              s.events[1].envelope.protected64 == Encoded(ProtectedJson(h, nonce.value), o.dumps))
  {
    if SignedSpec(o, t, c, h, url, payload).result.Ok? {
      SignedPost(o, t, c, h, url, payload);
      Sealed(o, c, h, o.nonce(t, c.acmeUrl + "/directory").value, payload);
    }
  }

  lemma NoncedPair(e0: Event, e1: Event, dumps: Json -> string)
    requires e1.Posted? && NonceFor(e0, e1.envelope, dumps)
    ensures NoncedPosts([e0, e1], dumps) && Posts([e0, e1]) == 1
  {
    assert [e0, e1][1..] == [e1] && [e1][1..] == [];
    assert Posts([e1]) == 1 + Posts([]);
  }

  /** Every signed request fetches its nonce right before its POST and sends at most one request. */
  lemma SignedRequestNonced(o: Oracles, t: seq<Event>, c: ClientConfig, h: Header, url: string, payload: Json)
    ensures var s := SignedSpec(o, t, c, h, url, payload);
            NoncedPosts(s.events, o.dumps) && StartsQuietly(s.events) && CaOnly(s.events) &&
            Posts(s.events) == (if s.result.Ok? then 1 else 0)
  {
    var s := SignedSpec(o, t, c, h, url, payload);
    SignedShape(o, t, c, h, url, payload);
    if s.result.Ok? {
      NoncedPair(s.events[0], s.events[1], o.dumps);
      assert s.events == [s.events[0], s.events[1]];
    }
  }

  /**
   * A signed request that reaches the CA POSTs an envelope whose header
   * has no nonce, whose signing input splits back into the encoded
   * protected header (the header plus the nonce) and payload, and whose
   * signature decodes to openssl's signature of that input.
   */
  lemma SignedEnvelope(o: Oracles, t: seq<Event>, c: ClientConfig, h: Header, url: string, payload: Json)
    requires SignedSpec(o, t, c, h, url, payload).result.Ok?
    ensures var s := SignedSpec(o, t, c, h, url, payload);
            var nonce := o.nonce(t, c.acmeUrl + "/directory");
            nonce.Some? && |s.events| == 2 &&
            var env := s.events[1].envelope;
            s.events[1] == Posted(url, env, s.result.value) && env.header == h &&
            Member(HeaderJson(env.header), "nonce") == None &&
            Member(ProtectedJson(env.header, nonce.value), "nonce") == Some(JStr(nonce.value)) &&
            Text.Split(SigningInput(env.protected64, env.payload64), ".") == [env.protected64, env.payload64] &&
            DecodeUnpadded(UrlSafe, env.protected64) == Some(Utf8(o.dumps(ProtectedJson(h, nonce.value)))) &&
            DecodeUnpadded(UrlSafe, env.payload64) == Some(Utf8(o.dumps(payload))) &&
            Some(DecodeUnpadded(UrlSafe, env.signature64).value) ==
              o.sign(c.accountKey, Utf8(SigningInput(env.protected64, env.payload64)))
  {
    var nonce := o.nonce(t, c.acmeUrl + "/directory").value;
    SignedPost(o, t, c, h, url, payload);
    Sealed(o, c, h, nonce, payload);
    var env := Seal(o, c, h, nonce, payload).value;
    var signature := o.sign(c.accountKey, Utf8(SigningInput(env.protected64, env.payload64))).value;
    EnvelopeFacts(env, h, nonce, payload, o.dumps, signature);
  }

  /** A successful signed request posts the sealed envelope, right after fetching the nonce. */
  lemma SignedPost(o: Oracles, t: seq<Event>, c: ClientConfig, h: Header, url: string, payload: Json)
    requires SignedSpec(o, t, c, h, url, payload).result.Ok?
    ensures var s := SignedSpec(o, t, c, h, url, payload);
            var nonce := o.nonce(t, c.acmeUrl + "/directory");
            nonce.Some? && Seal(o, c, h, nonce.value, payload).Some? && |s.events| == 2 &&
            s.events[1] == Posted(url, Seal(o, c, h, nonce.value, payload).value, s.result.value)
  {
  }

  /** A sealed envelope carries the header, the protected header with the nonce, and the key's signature. */
  lemma Sealed(o: Oracles, c: ClientConfig, h: Header, nonce: string, payload: Json)
    requires Seal(o, c, h, nonce, payload).Some?
    ensures var env := Seal(o, c, h, nonce, payload).value;
            var signature := o.sign(c.accountKey, Utf8(SigningInput(env.protected64, env.payload64)));
            env.header == h && env.protected64 == Encoded(ProtectedJson(h, nonce), o.dumps) &&
            env.payload64 == Encoded(payload, o.dumps) &&
            signature.Some? && env.signature64 == B64(signature.value)
  {
  }

  /** The envelope of a signed request, whatever the signature. */
  lemma EnvelopeFacts(env: Envelope, h: Header, nonce: string, payload: Json, dumps: Json -> string, signature: seq<byte>)
    requires env == Envelope(h, Encoded(ProtectedJson(h, nonce), dumps), Encoded(payload, dumps), B64(signature))
    ensures Member(HeaderJson(env.header), "nonce") == None &&
            Member(ProtectedJson(env.header, nonce), "nonce") == Some(JStr(nonce)) &&
            Text.Split(SigningInput(env.protected64, env.payload64), ".") == [env.protected64, env.payload64] &&
            DecodeUnpadded(UrlSafe, env.protected64) == Some(Utf8(dumps(ProtectedJson(h, nonce)))) &&
            DecodeUnpadded(UrlSafe, env.payload64) == Some(Utf8(dumps(payload))) &&
            DecodeUnpadded(UrlSafe, env.signature64) == Some(signature)
  {
    ProtectedHeader(h, nonce);
    SigningInputParts(ProtectedJson(h, nonce), payload, dumps);
  }

  // ----- Registration -----

  datatype Registration = Registered | AlreadyRegistered

  /** new-reg: 201 registers the account, 409 means it already exists, any other reply is an error. */
  function RegSpec(o: Oracles, t: seq<Event>, c: ClientConfig, h: Header): Run<Registration>
  {
    var s := SignedSpec(o, t, c, h, c.acmeUrl + "/acme/new-reg", RegPayload(c.contactEmail));
    if s.result.Err? then Run(Err(s.result.error), s.events)
    else if s.result.value.code == Some(201) then Run(Ok(Registered), s.events)
    else if s.result.value.code == Some(409) then Run(Ok(AlreadyRegistered), s.events)
    else Run(Err(RegistrationRejected(s.result.value.code)), s.events)
  }

  /** Registration succeeds exactly when the CA answered the new-reg request with 201 or 409. */
  lemma RegistrationOutcome(o: Oracles, t: seq<Event>, c: ClientConfig, h: Header)
    ensures var r := RegSpec(o, t, c, h);
            |r.events| >= 1 &&
            var e := r.events[|r.events| - 1];
            (r.result.Ok? <==> e.Posted? && (e.reply.code == Some(201) || e.reply.code == Some(409))) &&
            (r.result == Ok(Registered) <==> e.Posted? && e.reply.code == Some(201)) &&
            (e.Posted? ==> e.url == c.acmeUrl + "/acme/new-reg" &&
                           DecodeUnpadded(UrlSafe, e.envelope.payload64) == Some(Utf8(o.dumps(RegPayload(c.contactEmail)))))
  {
    var url := c.acmeUrl + "/acme/new-reg";
    var s := SignedSpec(o, t, c, h, url, RegPayload(c.contactEmail));
    SignedShape(o, t, c, h, url, RegPayload(c.contactEmail));
    var r := RegSpec(o, t, c, h);
    assert r.events == s.events;
    if s.result.Ok? {
      SignedEnvelope(o, t, c, h, url, RegPayload(c.contactEmail));
      assert r.events[|r.events| - 1] == s.events[1];
    }
  }

  // ----- The DNS propagation wait -----

  predicate Found(a: DnsAnswer) {
    a.Answers? && a.count > 0
  }

  /** An answer that means "not there yet": no records, or a resolver exception. */
  predicate Miss(a: DnsAnswer) {
    a == Answers(0) || a == DnsException
  }

  /** One TXT query for "_acme-challenge." + domain. */
  function CheckSpec(o: Oracles, t: seq<Event>, domain: string): (r: Run<bool>)
    ensures var a := o.dns(t, "_acme-challenge." + domain);
            r.events == [DnsQueried("_acme-challenge." + domain, a)] &&
            (r.result.Err? <==> a == OtherException) &&
            (r.result == Ok(true) <==> Found(a)) &&
            (r.result == Ok(false) <==> Miss(a))
  {
    var name := "_acme-challenge." + domain;
    var a := o.dns(t, name);
    var q := DnsQueried(name, a);
    match a
    case Answers(n) => Run(Ok(n > 0), [q])
    case DnsException => Run(Ok(false), [q])
    case OtherException => Run(Err(UnexpectedDnsError), [q])
  }

  const MaxRetries := 24

  /** The wait from the check made after `count` retries. */
  function WaitFrom(o: Oracles, t: seq<Event>, domain: string, count: nat): Run<bool>
    requires count <= MaxRetries
    decreases MaxRetries - count, 1
  {
    var check := CheckSpec(o, t, domain);
    if check.result.Err? then check
    else
      var rest := Continue(o, t + check.events, domain, count, check.result.value);
      Run(rest.result, check.events + rest.events)
  }

  /** The loop test after a check: retry after 5 seconds while not deployed and fewer than 24 retries were made. */
  function Continue(o: Oracles, t: seq<Event>, domain: string, count: nat, deployed: bool): Run<bool>
    requires count <= MaxRetries
    decreases MaxRetries - count, 0
  {
    if count < MaxRetries && !deployed then
      var rest := WaitFrom(o, t + [Slept(5)], domain, count + 1);
      Run(rest.result, [Slept(5)] + rest.events)
    else Run(Ok(deployed), [])
  }

  /** The events of a wait that got the given answers: one query per answer, 5 seconds of sleep between. */
  function Polling(name: string, answers: seq<DnsAnswer>): seq<Event>
    requires |answers| >= 1
  {
    if |answers| == 1 then [DnsQueried(name, answers[0])]
    else [DnsQueried(name, answers[0]), Slept(5)] + Polling(name, answers[1..])
  }

  lemma {:induction false} PollingFacts(name: string, answers: seq<DnsAnswer>)
    requires |answers| >= 1
    ensures var p := Polling(name, answers);
            p[|p| - 1] == DnsQueried(name, answers[|answers| - 1]) &&
            (forall i :: 0 <= i < |p| ==> p[i].DnsQueried? || p[i] == Slept(5)) &&
            (forall i :: 0 <= i < |p| && p[i].DnsQueried? ==> p[i].answer in answers)
  {
    if |answers| > 1 {
      PollingFacts(name, answers[1..]);
      var p, rest := Polling(name, answers), Polling(name, answers[1..]);
      assert forall i :: 2 <= i < |p| ==> p[i] == rest[i - 2];
      assert answers[1..][|answers[1..]| - 1] == answers[|answers| - 1];
      forall i | 0 <= i < |p| && p[i].DnsQueried? ensures p[i].answer in answers {
        if i >= 2 {
          assert rest[i - 2].answer in answers[1..];
        }
      }
    }
  }

  lemma PollingCons(name: string, a: DnsAnswer, rest: seq<DnsAnswer>)
    requires |rest| >= 1
    ensures Polling(name, [a] + rest) == [DnsQueried(name, a), Slept(5)] + Polling(name, rest)
  {
    ConsTail(a, rest);
  }

  /** A wait that got `n` answers slept 5 seconds between consecutive queries: 5 * (n - 1) in all. */
  lemma {:induction false} PollingSleeps(name: string, answers: seq<DnsAnswer>)
    requires |answers| >= 1
    ensures SleptSeconds(Polling(name, answers)) == 5 * (|answers| - 1)
  {
    var p := Polling(name, answers);
    if |answers| == 1 {
      assert p[1..] == [];
    } else {
      PollingSleeps(name, answers[1..]);
      PairCons(DnsQueried(name, answers[0]), Slept(5), Polling(name, answers[1..]));
    }
  }

  /**
   * `r` is a wait that got `answers` with at most `left` queries allowed:
   * one query per answer, 5 seconds of sleep between them and none after
   * the last; every query but the last was a clean miss; the result is
   * true iff the last query found records, an error iff it raised
   * anything but a DNS exception, and false only after the last allowed
   * query.
   */
  ghost predicate Polled(r: Run<bool>, name: string, answers: seq<DnsAnswer>, left: nat)
  {
    1 <= |answers| <= left &&
    var last := answers[|answers| - 1];
    r.events == Polling(name, answers) &&
    (forall i :: 0 <= i < |answers| - 1 ==> Miss(answers[i])) &&
    (r.result.Err? <==> last == OtherException) &&
    (r.result == Ok(true) <==> Found(last)) &&
    (r.result == Ok(false) ==> Miss(last) && |answers| == left)
  }

  /** A clean miss, 5 seconds of sleep, then a wait with one query fewer allowed. */
  lemma PolledCons(w: Run<bool>, r: Run<bool>, name: string, a: DnsAnswer, rest: seq<DnsAnswer>, left: nat)
    requires left >= 2 && Miss(a) && Polled(r, name, rest, left - 1)
    requires w.result == r.result && w.events == [DnsQueried(name, a)] + ([Slept(5)] + r.events)
    ensures Polled(w, name, [a] + rest, left)
  {
    var answers := [a] + rest;
    assert answers[|answers| - 1] == rest[|rest| - 1];
    assert forall i :: 1 <= i < |answers| ==> answers[i] == rest[i - 1];
    PollingCons(name, a, rest);
    PairCons(DnsQueried(name, a), Slept(5), r.events);
  }

  /** The wait from the check after `count` retries, with 25 - count queries left. */
  lemma {:induction false} WaitShape(o: Oracles, t: seq<Event>, domain: string, count: nat)
    returns (answers: seq<DnsAnswer>)
    requires count <= MaxRetries
    ensures var w := WaitFrom(o, t, domain, count);
            Polled(w, "_acme-challenge." + domain, answers, MaxRetries + 1 - count) &&
            SleptSeconds(w.events) == 5 * (|answers| - 1)
    decreases MaxRetries - count
  {
    var name := "_acme-challenge." + domain;
    var a := o.dns(t, name);
    if a == OtherException || Found(a) || count == MaxRetries {
      WaitEnds(o, t, domain, count);
      answers := [a];
    } else {
      var t1 := t + [DnsQueried(name, a)] + [Slept(5)];
      var rest := WaitShape(o, t1, domain, count + 1);
      WaitMiss(o, t, domain, count);
      PolledCons(WaitFrom(o, t, domain, count), WaitFrom(o, t1, domain, count + 1), name, a, rest, MaxRetries + 1 - count);
      answers := [a] + rest;
    }
    PollingSleeps(name, answers);
  }

  /** A wait whose check found records, raised, or was the last allowed ends with that check. */
  lemma WaitEnds(o: Oracles, t: seq<Event>, domain: string, count: nat)
    requires count <= MaxRetries
    requires var a := o.dns(t, "_acme-challenge." + domain); a == OtherException || Found(a) || count == MaxRetries
    ensures WaitFrom(o, t, domain, count) == CheckSpec(o, t, domain)
  {
    var check := CheckSpec(o, t, domain);
    if check.result.Ok? {
      assert Continue(o, t + check.events, domain, count, check.result.value) == Run(check.result, []);
      assert check.events + [] == check.events;
    }
  }

  /** A miss before the last allowed check: the query, 5 seconds of sleep, and the wait from the next check. */
  lemma WaitMiss(o: Oracles, t: seq<Event>, domain: string, count: nat)
    requires count < MaxRetries && Miss(o.dns(t, "_acme-challenge." + domain))
    ensures var q := DnsQueried("_acme-challenge." + domain, o.dns(t, "_acme-challenge." + domain));
            var r := WaitFrom(o, t + [q] + [Slept(5)], domain, count + 1);
            var w := WaitFrom(o, t, domain, count);
            w.result == r.result && w.events == [q] + ([Slept(5)] + r.events)
  {
    var q := DnsQueried("_acme-challenge." + domain, o.dns(t, "_acme-challenge." + domain));
    var check := CheckSpec(o, t, domain);
    assert check.events == [q] && check.result == Ok(false);
    var r := WaitFrom(o, t + [q] + [Slept(5)], domain, count + 1);
    assert Continue(o, t + [q], domain, count, false) == Run(r.result, [Slept(5)] + r.events);
  }

  // ----- The challenge status poll -----

  /**
   * GETs the challenge until it is no longer pending: "valid" ends the
   * poll, any other status or a failed GET is an error, and "pending"
   * sleeps a second and polls again. `fuel` bounds the number of polls.
   */
  function PollFrom(o: Oracles, t: seq<Event>, uri: string, fuel: nat): Run<()>
    decreases fuel
  {
    if fuel == 0 then Run(Err(StillPending), [])
    else
      var a := o.poll(t, uri);
      var q := ChallengePolled(uri, a);
      match a
      case PollFailed => Run(Err(ChallengeCheckFailed), [q])
      case Status(s) =>
        if s == "pending" then
          var rest := PollFrom(o, t + [q, Slept(1)], uri, fuel - 1);
          Run(rest.result, [q, Slept(1)] + rest.events)
        else if s == "valid" then Run(Ok(()), [q])
        else Run(Err(ChallengeInvalid(s)), [q])
  }

  /** The events of a poll that got the given replies: a second of sleep after each "pending". */
  function PollEvents(uri: string, replies: seq<PollReply>): seq<Event>
  {
    if replies == [] then []
    else [ChallengePolled(uri, replies[0])] + (if replies[0] == Status("pending") then [Slept(1)] else [])
         + PollEvents(uri, replies[1..])
  }

  /**
   * The poll makes at most `fuel` GETs, each but the last answered
   * "pending". It succeeds iff the last answer is "valid"; a failed GET
   * or another status is an error; it runs out only after `fuel`
   * "pending" answers.
   */
  lemma {:induction false} PollShape(o: Oracles, t: seq<Event>, uri: string, fuel: nat)
    returns (replies: seq<PollReply>)
    ensures var p := PollFrom(o, t, uri, fuel);
            |replies| <= fuel && p.events == PollEvents(uri, replies) &&
            (forall i :: 0 <= i < |replies| - 1 ==> replies[i] == Status("pending")) &&
            (p.result.Ok? <==> |replies| > 0 && replies[|replies| - 1] == Status("valid")) &&
            (p.result == Err(ChallengeCheckFailed) <==> |replies| > 0 && replies[|replies| - 1] == PollFailed) &&
            (p.result == Err(StillPending) <==>
               |replies| == fuel && forall i :: 0 <= i < |replies| ==> replies[i] == Status("pending")) &&
            (p.result.Err? && p.result.error.ChallengeInvalid? ==>
               |replies| > 0 && replies[|replies| - 1] == Status(p.result.error.status) &&
               p.result.error.status != "pending" && p.result.error.status != "valid")
    decreases fuel
  {
    if fuel == 0 {
      replies := [];
    } else {
      var a := o.poll(t, uri);
      var q := ChallengePolled(uri, a);
      if a == Status("pending") {
        var rest := PollShape(o, t + [q, Slept(1)], uri, fuel - 1);
        replies := [a] + rest;
        ConsTail(a, rest);
      } else {
        replies := [a];
      }
    }
  }

  // ----- One domain -----

  /** What the new-authz step yields: the dns-01 challenge, the key authorization, the TXT value and record name. */
  datatype Authorization = Authorization(challenge: Challenge, keyAuthorization: string, dnsToken: string, name: ChallengeName)

  /**
   * What the client takes from the new-authz reply (201 expected): the
   * first dns-01 challenge, its key authorization and TXT value, and the
   * zone and record name of the domain.
   */
  function ReadAuthorization(o: Oracles, reply: Reply, thumbprint: string, domain: string): Result<Authorization, Error>
  {
    if reply.code != Some(201) then Err(ChallengeRequestRejected(reply.code))
    else match o.challenges(reply.body)
      case None => Err(MalformedChallenges)
      case Some(cs) =>
        match FirstDns01(cs)
        case None => Err(NoDns01Challenge)
        case Some(ch) =>
          var keyAuthorization := KeyAuthorization(ch.token, thumbprint);
          var token := DnsToken(keyAuthorization, o.sha256);
          match SplitDomain(domain)
          case None => Err(BadDomain(domain))
          case Some(name) => Ok(Authorization(ch, keyAuthorization, token, name))
  }

  /** new-authz for the domain, and what the client takes from its reply. */
  function AuthorizeSpec(o: Oracles, t: seq<Event>, c: ClientConfig, h: Header, thumbprint: string, domain: string)
    : Run<Authorization>
  {
    var s := SignedSpec(o, t, c, h, c.acmeUrl + "/acme/new-authz", NewAuthzPayload(domain));
    Run(if s.result.Err? then Err(s.result.error) else ReadAuthorization(o, s.result.value, thumbprint, domain), s.events)
  }

  /** How a domain's flow ended without an error. */
  datatype Outcome = Verified | NotPropagated

  /**
   * The guarded part of a domain's flow, once the record is deployed:
   * wait for propagation; if it propagated, trigger the challenge (202
   * expected) and poll it; if not, end quietly.
   */
  function GuardedSpec(o: Oracles, t: seq<Event>, c: ClientConfig, h: Header, domain: string, z: Authorization, fuel: nat)
    : Run<Outcome>
  {
    var w := WaitFrom(o, t, domain, 0);
    if w.result.Err? then Run(Err(w.result.error), w.events)
    else if !w.result.value then Run(Ok(NotPropagated), w.events)
    else
      var n := SignedSpec(o, t + w.events, c, h, z.challenge.uri, ChallengePayload(z.keyAuthorization));
      if n.result.Err? then Run(Err(n.result.error), w.events + n.events)
      else if n.result.value.code != Some(202) then Run(Err(TriggerRejected(n.result.value.code)), w.events + n.events)
      else
        var p := PollFrom(o, t + w.events + n.events, z.challenge.uri, fuel);
        Run(if p.result.Ok? then Ok(Verified) else Err(p.result.error), w.events + n.events + p.events)
  }

  /**
   * One domain's flow: authorize, deploy the TXT record, run the guarded
   * part, and delete the record whatever happened. A failed deletion
   * replaces the outcome with its own error.
   */
  function ProveSpec(o: Oracles, t: seq<Event>, c: ClientConfig, h: Header, thumbprint: string, domain: string, fuel: nat)
    : Run<Outcome>
  {
    var a := AuthorizeSpec(o, t, c, h, thumbprint, domain);
    if a.result.Err? then Run(Err(a.result.error), a.events)
    else
      var z := a.result.value;
      var t1 := t + a.events;
      match o.deploy(t1, z.name.base, z.name.sub, z.dnsToken)
      case None => Run(Err(DeployRaised), a.events + [DeployFailed(z.name.base, z.name.sub, z.dnsToken)])
      case Some(record) =>
        var deployed := Deployed(z.name.base, z.name.sub, z.dnsToken, record);
        var g := GuardedSpec(o, t1 + [deployed], c, h, domain, z, fuel);
        var ok := o.delete(t1 + [deployed] + g.events, record);
        Run(if ok then g.result else Err(DeleteRaised), a.events + [deployed] + g.events + [Deleted(record, ok)])
  }

  // ----- What one domain's flow promises -----

  /** No deployment or deletion. */
  predicate NoAdapter(t: seq<Event>)
  {
    forall i :: 0 <= i < |t| ==> !t[i].Deployed? && !t[i].Deleted?
  }

  /** No request to the CA. */
  predicate NoPosts(t: seq<Event>)
  {
    forall i :: 0 <= i < |t| ==> !t[i].Posted?
  }

  /** Some TXT query found records. */
  predicate SawRecord(t: seq<Event>)
  {
    exists i :: 0 <= i < |t| && t[i].DnsQueried? && Found(t[i].answer)
  }

  /** Some TXT query before position `k` found records. */
  predicate SeenBy(t: seq<Event>, k: int)
  {
    exists i :: 0 <= i < k && i < |t| && t[i].DnsQueried? && Found(t[i].answer)
  }

  /** Every request to the CA comes after a TXT query that found records. */
  predicate SeenBeforePosts(t: seq<Event>)
  {
    forall k :: 0 <= k < |t| && t[k].Posted? ==> SeenBy(t, k)
  }

  /** Every request to the CA that follows another one comes after a TXT query that found records. */
  predicate SeenBeforeLaterPosts(t: seq<Event>)
  {
    forall m, k :: 0 <= m < k < |t| && t[m].Posted? && t[k].Posted? ==> SeenBy(t, k)
  }

  /** At most one request to the CA. */
  predicate AtMostOnePost(t: seq<Event>)
  {
    forall m, k :: 0 <= m < k < |t| && t[m].Posted? ==> !t[k].Posted?
  }

  /** Events without requests, one of whose queries found records, put every later request after it. */
  lemma SeenPrefix(a: seq<Event>, b: seq<Event>)
    requires NoPosts(a) && SawRecord(a)
    ensures SeenBeforePosts(a + b)
  {
    var t := a + b;
    var i :| 0 <= i < |a| && a[i].DnsQueried? && Found(a[i].answer);
    assert forall j :: 0 <= j < |a| ==> t[j] == a[j];
    forall k | 0 <= k < |t| && t[k].Posted? ensures SeenBy(t, k) {
      assert i < |a| <= k;
    }
  }

  lemma {:induction false} NoAdapterEvents(t: seq<Event>)
    requires NoAdapter(t)
    ensures AdapterEvents(t) == []
    decreases |t|
  {
    if t != [] {
      assert forall i :: 0 <= i < |t[1..]| ==> t[1..][i] == t[i + 1];
      NoAdapterEvents(t[1..]);
    }
  }

  lemma {:induction false} NoPostsCount(t: seq<Event>)
    requires NoPosts(t)
    ensures Posts(t) == 0
    decreases |t|
  {
    if t != [] {
      assert forall i :: 0 <= i < |t[1..]| ==> t[1..][i] == t[i + 1];
      NoPostsCount(t[1..]);
    }
  }

  lemma {:induction false} PollEventsFacts(uri: string, replies: seq<PollReply>)
    ensures var p := PollEvents(uri, replies);
            (forall i :: 0 <= i < |p| ==> p[i].ChallengePolled? || p[i] == Slept(1)) &&
            (replies != [] ==> p != [] && p[0].ChallengePolled?) &&
            (replies != [] && replies[|replies| - 1] != Status("pending") ==>
               p[|p| - 1] == ChallengePolled(uri, replies[|replies| - 1]))
    decreases |replies|
  {
    if replies != [] {
      PollEventsFacts(uri, replies[1..]);
      var head := [ChallengePolled(uri, replies[0])] + (if replies[0] == Status("pending") then [Slept(1)] else []);
      var rest := PollEvents(uri, replies[1..]);
      var p := PollEvents(uri, replies);
      assert p == head + rest;
      assert forall i :: |head| <= i < |p| ==> p[i] == rest[i - |head|];
      if |replies| > 1 {
        assert replies[1..][|replies[1..]| - 1] == replies[|replies| - 1];
      }
    }
  }

  /** The wait only queries and sleeps. */
  lemma WaitQuiet(o: Oracles, t: seq<Event>, domain: string)
    ensures var w := WaitFrom(o, t, domain, 0);
            NoAdapter(w.events) && NoPosts(w.events) && w.events != [] && w.events[0].DnsQueried? &&
            (w.result == Ok(true) ==> SawRecord(w.events))
  {
    var answers := WaitShape(o, t, domain, 0);
    PollingFacts("_acme-challenge." + domain, answers);
    var w := WaitFrom(o, t, domain, 0);
    if w.result == Ok(true) {
      assert w.events[|w.events| - 1].DnsQueried? && Found(w.events[|w.events| - 1].answer);
    }
  }

  /** A quiet stretch of a trace: no adapter call, and every request carries the nonce fetched right before it. */
  predicate Quiet(t: seq<Event>, dumps: Json -> string)
  {
    NoAdapter(t) && NoncedPosts(t, dumps) && StartsQuietly(t)
  }

  lemma QuietAppend(a: seq<Event>, b: seq<Event>, dumps: Json -> string)
    requires Quiet(a, dumps) && Quiet(b, dumps)
    ensures Quiet(a + b, dumps) && Posts(a + b) == Posts(a) + Posts(b)
    ensures SawRecord(a) ==> SawRecord(a + b)
  {
    NoncedAppend(a, b, dumps);
    PostsAppend(a, b);
    var t := a + b;
    assert forall i :: 0 <= i < |a| ==> t[i] == a[i];
    assert forall i :: |a| <= i < |t| ==> t[i] == b[i - |a|];
  }

  /** The three stages of the guarded part and how they end. */
  lemma GuardedStages(o: Oracles, t: seq<Event>, c: ClientConfig, h: Header, domain: string, z: Authorization, fuel: nat)
    ensures var g := GuardedSpec(o, t, c, h, domain, z, fuel);
            var w := WaitFrom(o, t, domain, 0);
            var n := SignedSpec(o, t + w.events, c, h, z.challenge.uri, ChallengePayload(z.keyAuthorization));
            var p := PollFrom(o, t + w.events + n.events, z.challenge.uri, fuel);
            (w.result != Ok(true) ==>
               g.events == w.events && (g.result == Ok(NotPropagated) <==> w.result == Ok(false)) &&
               g.result != Ok(Verified)) &&
            (w.result == Ok(true) && (n.result.Err? || n.result.value.code != Some(202)) ==>
               g.events == w.events + n.events && g.result.Err?) &&
            (w.result == Ok(true) && n.result.Ok? && n.result.value.code == Some(202) ==>
               g.events == w.events + n.events + p.events && (g.result == Ok(Verified) <==> p.result.Ok?) &&
               g.result != Ok(NotPropagated))
  {
  }

  lemma PollQuiet(o: Oracles, t: seq<Event>, uri: string, fuel: nat, dumps: Json -> string)
    ensures var p := PollFrom(o, t, uri, fuel);
            Quiet(p.events, dumps) && Posts(p.events) == 0 &&
            (p.result.Ok? ==> p.events != [] && p.events[|p.events| - 1] == ChallengePolled(uri, Status("valid")))
  {
    var p := PollFrom(o, t, uri, fuel);
    var replies := PollShape(o, t, uri, fuel);
    PollEventsFacts(uri, replies);
    assert NoPosts(p.events);
    NoPostsCount(p.events);
  }

  lemma SignedQuiet(o: Oracles, t: seq<Event>, c: ClientConfig, h: Header, url: string, payload: Json)
    ensures var s := SignedSpec(o, t, c, h, url, payload);
            Quiet(s.events, o.dumps) && s.events != [] && Posts(s.events) == (if s.result.Ok? then 1 else 0)
  {
    SignedRequestNonced(o, t, c, h, url, payload);
    SignedShape(o, t, c, h, url, payload);
  }

  /**
   * After deployment: no adapter calls; every request carries the nonce
   * fetched right before it; the CA is sent the trigger only after a TXT
   * query found the record; and a verified challenge ends with the poll
   * that said "valid".
   */
  lemma GuardedFacts(o: Oracles, t: seq<Event>, c: ClientConfig, h: Header, domain: string, z: Authorization, fuel: nat)
    ensures var g := GuardedSpec(o, t, c, h, domain, z, fuel);
            Quiet(g.events, o.dumps) &&
            Posts(g.events) <= 1 &&
            (Posts(g.events) == 1 ==> SawRecord(g.events)) &&
            SeenBeforePosts(g.events) &&
            (g.result == Ok(NotPropagated) ==> Posts(g.events) == 0) &&
            (g.result == Ok(Verified) ==>
               Posts(g.events) == 1 && g.events != [] &&
               g.events[|g.events| - 1] == ChallengePolled(z.challenge.uri, Status("valid")))
  {
    var w := WaitFrom(o, t, domain, 0);
    GuardedStages(o, t, c, h, domain, z, fuel);
    WaitQuiet(o, t, domain);
    NoPostsCount(w.events);
    assert Quiet(w.events, o.dumps);
    if w.result == Ok(true) {
      var url := z.challenge.uri;
      var n := SignedSpec(o, t + w.events, c, h, url, ChallengePayload(z.keyAuthorization));
      SignedQuiet(o, t + w.events, c, h, url, ChallengePayload(z.keyAuthorization));
      QuietAppend(w.events, n.events, o.dumps);
      if n.result.Ok? && n.result.value.code == Some(202) {
        var p := PollFrom(o, t + w.events + n.events, url, fuel);
        PollQuiet(o, t + w.events + n.events, url, fuel, o.dumps);
        QuietAppend(w.events + n.events, p.events, o.dumps);
        SeenPrefix(w.events, n.events + p.events);
        Assoc2(w.events, n.events, p.events);
      } else {
        SeenPrefix(w.events, n.events);
      }
    }
  }

  /** The new-authz step appends the events of its signed request and nothing else. */
  lemma AuthorizeEvents(o: Oracles, t: seq<Event>, c: ClientConfig, h: Header, thumbprint: string, domain: string)
    ensures AuthorizeSpec(o, t, c, h, thumbprint, domain).events ==
            SignedSpec(o, t, c, h, c.acmeUrl + "/acme/new-authz", NewAuthzPayload(domain)).events
    ensures AuthorizeSpec(o, t, c, h, thumbprint, domain).result.Ok? ==>
            SignedSpec(o, t, c, h, c.acmeUrl + "/acme/new-authz", NewAuthzPayload(domain)).result.Ok?
  {
  }

  /** The new-authz step sends one request and touches nothing else. */
  lemma AuthorizeFacts(o: Oracles, t: seq<Event>, c: ClientConfig, h: Header, thumbprint: string, domain: string)
    ensures var a := AuthorizeSpec(o, t, c, h, thumbprint, domain);
            a.events != [] && Quiet(a.events, o.dumps) &&
            Posts(a.events) <= 1 && (a.result.Ok? ==> Posts(a.events) == 1)
  {
    var url := c.acmeUrl + "/acme/new-authz";
    var s := SignedSpec(o, t, c, h, url, NewAuthzPayload(domain));
    AuthorizeEvents(o, t, c, h, thumbprint, domain);
    SignedQuiet(o, t, c, h, url, NewAuthzPayload(domain));
  }

  /**
   * What the new-authz step hands on: the first dns-01 challenge of a 201
   * reply, a key authorization that splits back into the sanitised token
   * and the thumbprint, a TXT value that decodes to the digest of the key
   * authorization, and the zone and record name of the domain.
   */
  lemma AuthorizationFacts(o: Oracles, t: seq<Event>, c: ClientConfig, h: Header, thumbprint: string, domain: string)
    requires '.' !in thumbprint
    requires AuthorizeSpec(o, t, c, h, thumbprint, domain).result.Ok?
    ensures var z := AuthorizeSpec(o, t, c, h, thumbprint, domain).result.value;
            var s := SignedSpec(o, t, c, h, c.acmeUrl + "/acme/new-authz", NewAuthzPayload(domain));
            s.result.Ok? && s.result.value.code == Some(201) &&
            o.challenges(s.result.value.body).Some? &&
            FirstDns01(o.challenges(s.result.value.body).value) == Some(z.challenge) &&
            z.challenge.kind == "dns-01" &&
            Text.Split(z.keyAuthorization, ".") == [SanitizeToken(z.challenge.token), thumbprint] &&
            DecodeUnpadded(UrlSafe, z.dnsToken) == Some(o.sha256(Utf8(z.keyAuthorization))) &&
            SplitDomain(domain) == Some(z.name) && '.' in domain
  {
    var z := AuthorizeSpec(o, t, c, h, thumbprint, domain).result.value;
    KeyAuthorizationParts(z.challenge.token, thumbprint);
  }

  lemma PostsOne(e: Event)
    ensures Posts([e]) == (if e.Posted? then 1 else 0)
  {
    assert [e][1..] == [];
  }

  lemma AdapterOne(e: Event)
    ensures AdapterEvents([e]) == (if e.Deployed? || e.Deleted? then [e] else [])
  {
    assert [e][1..] == [];
  }

  lemma SawRecordAfter(a: seq<Event>, b: seq<Event>)
    requires SawRecord(b)
    ensures SawRecord(a + b)
  {
    var i :| 0 <= i < |b| && b[i].DnsQueried? && Found(b[i].answer);
    assert (a + b)[|a| + i] == b[i];
  }

  /** The stages of one domain's flow and how each ends. */
  lemma ProveStages(o: Oracles, t: seq<Event>, c: ClientConfig, h: Header, thumbprint: string, domain: string, fuel: nat)
    ensures var p := ProveSpec(o, t, c, h, thumbprint, domain, fuel);
            var a := AuthorizeSpec(o, t, c, h, thumbprint, domain);
            (a.result.Err? ==> p.events == a.events && p.result.Err?) &&
            (a.result.Ok? ==>
               var z := a.result.value;
               var dep := o.deploy(t + a.events, z.name.base, z.name.sub, z.dnsToken);
               (dep.None? ==>
                  p.events == a.events + [DeployFailed(z.name.base, z.name.sub, z.dnsToken)] &&
                  p.result == Err(DeployRaised)) &&
               (dep.Some? ==>
                  var deployed := Deployed(z.name.base, z.name.sub, z.dnsToken, dep.value);
                  var g := GuardedSpec(o, t + a.events + [deployed], c, h, domain, z, fuel);
                  var ok := o.delete(t + a.events + [deployed] + g.events, dep.value);
                  p.events == a.events + [deployed] + g.events + [Deleted(dep.value, ok)] &&
                  p.result == (if ok then g.result else Err(DeleteRaised))))
  {
  }

  /** The events of a flow whose deployment raised. */
  lemma FailedDeployEvents(a: seq<Event>, e: Event, dumps: Json -> string)
    requires Quiet(a, dumps) && e.DeployFailed?
    ensures var all := a + [e];
            AdapterEvents(all) == [] && NoncedPosts(all, dumps) && StartsQuietly(all) && Posts(all) == Posts(a)
  {
    assert Quiet([e], dumps);
    QuietAppend(a, [e], dumps);
    PostsOne(e);
    NoAdapterEvents(a + [e]);
  }

  /** The events of a flow that deployed a record: authorization, deployment, guarded part, deletion. */
  lemma DeployedEvents(a: seq<Event>, deployed: Event, g: seq<Event>, deleted: Event, dumps: Json -> string)
    requires Quiet(a, dumps) && Quiet(g, dumps)
    requires deployed.Deployed? && deleted.Deleted?
    ensures var all := a + [deployed] + g + [deleted];
            AdapterEvents(all) == [deployed, deleted] && NoncedPosts(all, dumps) && StartsQuietly(all) &&
            Posts(all) == Posts(a) + Posts(g) && (SawRecord(g) ==> SawRecord(all)) &&
            |all| >= 2 && all[|all| - 1] == deleted && all[|all| - 2] == (if g == [] then deployed else g[|g| - 1])
  {
    NoAdapterEvents(a);
    NoAdapterEvents(g);
    DeployedAdapter(a, deployed, g, deleted);
    DeployedNonced(a, deployed, g, deleted, dumps);
    DeployedPosts(a, deployed, g, deleted);
    DeployedLast(a, deployed, g, deleted);
  }

  lemma DeployedAdapter(a: seq<Event>, deployed: Event, g: seq<Event>, deleted: Event)
    requires AdapterEvents(a) == [] && AdapterEvents(g) == [] && deployed.Deployed? && deleted.Deleted?
    ensures AdapterEvents(a + [deployed] + g + [deleted]) == [deployed, deleted]
  {
    AdapterOne(deployed);
    AdapterOne(deleted);
    AdapterAppend(a, [deployed]);
    AdapterAppend(a + [deployed], g);
    AdapterAppend(a + [deployed] + g, [deleted]);
  }

  lemma DeployedNonced(a: seq<Event>, deployed: Event, g: seq<Event>, deleted: Event, dumps: Json -> string)
    requires NoncedPosts(a, dumps) && StartsQuietly(a) && NoncedPosts(g, dumps) && StartsQuietly(g)
    requires !deployed.Posted? && !deleted.Posted?
    ensures NoncedPosts(a + [deployed] + g + [deleted], dumps) && StartsQuietly(a + [deployed] + g + [deleted])
  {
    assert NoncedPosts([deployed], dumps);
    assert NoncedPosts([deleted], dumps);
    NoncedAppend(a, [deployed], dumps);
    NoncedAppend(a + [deployed], g, dumps);
    NoncedAppend(a + [deployed] + g, [deleted], dumps);
    var all := a + [deployed] + g + [deleted];
    assert all[0] == (if a == [] then deployed else a[0]);
  }

  lemma DeployedPosts(a: seq<Event>, deployed: Event, g: seq<Event>, deleted: Event)
    requires !deployed.Posted? && !deleted.Posted?
    ensures Posts(a + [deployed] + g + [deleted]) == Posts(a) + Posts(g)
    ensures SawRecord(g) ==> SawRecord(a + [deployed] + g + [deleted])
  {
    PostsOne(deployed);
    PostsOne(deleted);
    PostsAppend(a, [deployed]);
    PostsAppend(a + [deployed], g);
    PostsAppend(a + [deployed] + g, [deleted]);
    if SawRecord(g) {
      var i :| 0 <= i < |g| && g[i].DnsQueried? && Found(g[i].answer);
      assert (a + [deployed] + g + [deleted])[|a| + 1 + i] == g[i];
    }
  }

  lemma DeployedLast(a: seq<Event>, deployed: Event, g: seq<Event>, deleted: Event)
    ensures var all := a + [deployed] + g + [deleted];
            |all| >= 2 && all[|all| - 1] == deleted && all[|all| - 2] == (if g == [] then deployed else g[|g| - 1])
  {
  }

  /**
   * A domain's flow deletes what it deployed: the adapter sees nothing,
   * or the deployment of the record for this domain's TXT value followed
   * by the deletion of the record it returned, and that deletion is the
   * last thing the flow does. A failed deletion makes the flow fail; a
   * flow that deployed nothing failed. Every request carries the nonce
   * fetched right before it.
   */
  lemma ProveCleanup(o: Oracles, t: seq<Event>, c: ClientConfig, h: Header, thumbprint: string, domain: string, fuel: nat)
    ensures var p := ProveSpec(o, t, c, h, thumbprint, domain, fuel);
            var a := AuthorizeSpec(o, t, c, h, thumbprint, domain);
            var adapter := AdapterEvents(p.events);
            Paired(adapter) && |adapter| <= 2 && p.events != [] &&
            NoncedPosts(p.events, o.dumps) && StartsQuietly(p.events) &&
            (adapter == [] ==> p.result.Err?) &&
            (|adapter| == 2 ==>
               a.result.Ok? &&
               adapter[0] == Deployed(a.result.value.name.base, a.result.value.name.sub, a.result.value.dnsToken,
                                      adapter[0].record) &&
               p.events[|p.events| - 1] == adapter[1] && adapter[1].record == adapter[0].record &&
               (!adapter[1].ok ==> p.result == Err(DeleteRaised)))
  {
    var a := AuthorizeSpec(o, t, c, h, thumbprint, domain);
    ProveStages(o, t, c, h, thumbprint, domain, fuel);
    AuthorizeFacts(o, t, c, h, thumbprint, domain);
    if a.result.Err? {
      NoAdapterEvents(a.events);
    } else {
      var z := a.result.value;
      var dep := o.deploy(t + a.events, z.name.base, z.name.sub, z.dnsToken);
      if dep.None? {
        FailedDeployEvents(a.events, DeployFailed(z.name.base, z.name.sub, z.dnsToken), o.dumps);
      } else {
        var deployed := Deployed(z.name.base, z.name.sub, z.dnsToken, dep.value);
        var g := GuardedSpec(o, t + a.events + [deployed], c, h, domain, z, fuel);
        GuardedFacts(o, t + a.events + [deployed], c, h, domain, z, fuel);
        var ok := o.delete(t + a.events + [deployed] + g.events, dep.value);
        CleanupDeployed(a.events, z, dep.value, g, ok, o.dumps);
      }
    }
  }

  /** ProveCleanup, for a flow that deployed its record: the deletion of that record ends it. */
  lemma CleanupDeployed(a: seq<Event>, z: Authorization, record: Record, g: Run<Outcome>, ok: bool, dumps: Json -> string)
    requires Quiet(a, dumps) && Quiet(g.events, dumps)
    ensures var deployed := Deployed(z.name.base, z.name.sub, z.dnsToken, record);
            var events := a + [deployed] + g.events + [Deleted(record, ok)];
            var adapter := AdapterEvents(events);
            Paired(adapter) && |adapter| == 2 && events != [] &&
            NoncedPosts(events, dumps) && StartsQuietly(events) &&
            adapter[0] == Deployed(z.name.base, z.name.sub, z.dnsToken, adapter[0].record) &&
            events[|events| - 1] == adapter[1] && adapter[1].record == adapter[0].record &&
            (!adapter[1].ok ==> (if ok then g.result else Err(DeleteRaised)) == Err(DeleteRaised))
  {
    var deployed := Deployed(z.name.base, z.name.sub, z.dnsToken, record);
    DeployedEvents(a, deployed, g.events, Deleted(record, ok), dumps);
    PairedTwo(deployed, Deleted(record, ok));
  }

  lemma PairedTwo(deployed: Event, deleted: Event)
    requires deployed.Deployed? && deleted.Deleted? && deleted.record == deployed.record
    ensures Paired([deployed, deleted])
  {
    assert [deployed, deleted][2..] == [];
  }

  /**
   * What a domain's flow sends to the CA: the new-authz request and, only
   * after a TXT query found the record, the trigger. A domain that did not
   * propagate ends without an error and without the trigger; a verified
   * one was triggered, and the poll that said "valid" came right before
   * the record was deleted.
   */
  predicate Notified(events: seq<Event>, result: Result<Outcome, Error>)
  {
    Posts(events) <= 2 &&
    (Posts(events) == 2 ==> SawRecord(events)) &&
    SeenBeforeLaterPosts(events) &&
    (result == Ok(NotPropagated) ==> Posts(events) == 1) &&
    (result == Ok(Verified) ==>
       Posts(events) == 2 && |events| >= 2 &&
       events[|events| - 2].ChallengePolled? && events[|events| - 2].status == Status("valid"))
  }

  lemma ProveNotify(o: Oracles, t: seq<Event>, c: ClientConfig, h: Header, thumbprint: string, domain: string, fuel: nat)
    ensures var p := ProveSpec(o, t, c, h, thumbprint, domain, fuel);
            Notified(p.events, p.result)
  {
    var a := AuthorizeSpec(o, t, c, h, thumbprint, domain);
    ProveStages(o, t, c, h, thumbprint, domain, fuel);
    AuthorizeFacts(o, t, c, h, thumbprint, domain);
    AuthorizeOnePost(o, t, c, h, thumbprint, domain);
    if a.result.Err? {
      OnePostSeen(a.events);
    } else {
      var z := a.result.value;
      var dep := o.deploy(t + a.events, z.name.base, z.name.sub, z.dnsToken);
      if dep.None? {
        FailedDeployEvents(a.events, DeployFailed(z.name.base, z.name.sub, z.dnsToken), o.dumps);
        OnePostAppend(a.events, DeployFailed(z.name.base, z.name.sub, z.dnsToken));
      } else {
        var deployed := Deployed(z.name.base, z.name.sub, z.dnsToken, dep.value);
        var g := GuardedSpec(o, t + a.events + [deployed], c, h, domain, z, fuel);
        GuardedFacts(o, t + a.events + [deployed], c, h, domain, z, fuel);
        var ok := o.delete(t + a.events + [deployed] + g.events, dep.value);
        NotifyDeployed(a.events, deployed, g, Deleted(dep.value, ok), ok, z.challenge.uri, o.dumps);
      }
    }
  }

  /** Notified, for a flow that deployed its record: authorization, deployment, guarded part, deletion. */
  lemma NotifyDeployed(a: seq<Event>, deployed: Event, g: Run<Outcome>, deleted: Event, ok: bool,
                       uri: string, dumps: Json -> string)
    requires Quiet(a, dumps) && Posts(a) == 1 && Quiet(g.events, dumps)
    requires deployed.Deployed? && deleted.Deleted?
    requires Posts(g.events) <= 1 && (Posts(g.events) == 1 ==> SawRecord(g.events))
    requires AtMostOnePost(a) && SeenBeforePosts(g.events)
    requires g.result == Ok(NotPropagated) ==> Posts(g.events) == 0
    requires g.result == Ok(Verified) ==>
               Posts(g.events) == 1 && g.events != [] && g.events[|g.events| - 1] == ChallengePolled(uri, Status("valid"))
    ensures Notified(a + [deployed] + g.events + [deleted], if ok then g.result else Err(DeleteRaised))
  {
    DeployedEvents(a, deployed, g.events, deleted, dumps);
    LaterPostsSeen(a, deployed, g.events, deleted);
  }

  /** The new-authz step sends at most one request: its events are the nonce fetch and the POST. */
  lemma AuthorizeOnePost(o: Oracles, t: seq<Event>, c: ClientConfig, h: Header, thumbprint: string, domain: string)
    ensures AtMostOnePost(AuthorizeSpec(o, t, c, h, thumbprint, domain).events)
  {
    AuthorizeEvents(o, t, c, h, thumbprint, domain);
    SignedShape(o, t, c, h, c.acmeUrl + "/acme/new-authz", NewAuthzPayload(domain));
  }

  lemma OnePostSeen(t: seq<Event>)
    requires AtMostOnePost(t)
    ensures SeenBeforeLaterPosts(t)
  {
  }

  lemma OnePostAppend(t: seq<Event>, e: Event)
    requires AtMostOnePost(t) && !e.Posted?
    ensures SeenBeforeLaterPosts(t + [e])
  {
    var u := t + [e];
    assert forall k :: 0 <= k < |t| ==> u[k] == t[k];
  }

  /**
   * Authorization with one request, deployment, a guarded part whose
   * requests each follow a found TXT query, deletion: every request after
   * the first follows a found TXT query.
   */
  lemma LaterPostsSeen(a: seq<Event>, deployed: Event, g: seq<Event>, deleted: Event)
    requires AtMostOnePost(a) && SeenBeforePosts(g) && !deployed.Posted? && !deleted.Posted?
    ensures SeenBeforeLaterPosts(a + [deployed] + g + [deleted])
  {
    var all := a + [deployed] + g + [deleted];
    var off := |a| + 1;
    assert forall k :: 0 <= k < |a| ==> all[k] == a[k];
    assert forall k :: 0 <= k < |g| ==> all[off + k] == g[k];
    assert all[|a|] == deployed && all[|all| - 1] == deleted;
    forall m, k | 0 <= m < k < |all| && all[m].Posted? && all[k].Posted? ensures SeenBy(all, k) {
      assert off <= k < off + |g|;
      assert g[k - off].Posted?;
      var i :| 0 <= i < k - off && i < |g| && g[i].DnsQueried? && Found(g[i].answer);
      assert all[off + i] == g[i];
    }
  }

  // ----- Issuing a certificate -----

  /** One domain's flow as a function of the trace before it and the domain. */
  function ProveStep(o: Oracles, c: ClientConfig, h: Header, thumbprint: string, fuel: nat)
    : (seq<Event>, string) -> Run<Outcome>
  {
    (t: seq<Event>, domain: string) => ProveSpec(o, t, c, h, thumbprint, domain, fuel)
  }

  /**
   * The flows of the domains in the order the set yields them, each one
   * `step`; the first failure ends the run.
   */
  function DomainsSpec(step: (seq<Event>, string) -> Run<Outcome>, t: seq<Event>, order: seq<string>): Run<()>
    decreases |order|
  {
    if order == [] then Run(Ok(()), [])
    else
      var pre := DomainsSpec(step, t, order[..|order| - 1]);
      if pre.result.Err? then pre
      else
        var d := step(t + pre.events, order[|order| - 1]);
        Run(if d.result.Ok? then Ok(()) else Err(d.result.error), pre.events + d.events)
  }

  /** What ProveCleanup promises of a domain's flow, in the terms the issuance needs. */
  predicate Tidy(r: Run<Outcome>, dumps: Json -> string)
  {
    Paired(AdapterEvents(r.events)) && NoncedPosts(r.events, dumps) && StartsQuietly(r.events) && r.events != []
  }

  lemma ProveStepTidy(o: Oracles, c: ClientConfig, h: Header, thumbprint: string, fuel: nat)
    ensures forall t, domain :: Tidy(ProveStep(o, c, h, thumbprint, fuel)(t, domain), o.dumps)
  {
    forall t, domain ensures Tidy(ProveStep(o, c, h, thumbprint, fuel)(t, domain), o.dumps) {
      ProveCleanup(o, t, c, h, thumbprint, domain, fuel);
    }
  }

  /** Every record deployed for any domain is deleted before the next domain starts. */
  lemma {:induction false} DomainsFacts(step: (seq<Event>, string) -> Run<Outcome>, t: seq<Event>, order: seq<string>,
                                        dumps: Json -> string)
    requires forall t', domain :: Tidy(step(t', domain), dumps)
    ensures var r := DomainsSpec(step, t, order);
            Paired(AdapterEvents(r.events)) && NoncedPosts(r.events, dumps) && StartsQuietly(r.events) &&
            (r.result.Err? ==> r.events != [])
    decreases |order|
  {
    if order != [] {
      var pre := DomainsSpec(step, t, order[..|order| - 1]);
      DomainsFacts(step, t, order[..|order| - 1], dumps);
      if pre.result.Ok? {
        var d := step(t + pre.events, order[|order| - 1]);
        assert Tidy(d, dumps);
        AdapterAppend(pre.events, d.events);
        PairedAppend(AdapterEvents(pre.events), AdapterEvents(d.events));
        NoncedAppend(pre.events, d.events, dumps);
        if pre.events == [] {
          assert pre.events + d.events == d.events;
        }
      }
    }
  }

  /** One more domain: its flow runs after the previous ones and its failure is the run's. */
  lemma DomainsSnoc(step: (seq<Event>, string) -> Run<Outcome>, t: seq<Event>, order: seq<string>, domain: string)
    requires DomainsSpec(step, t, order).result.Ok?
    ensures var pre := DomainsSpec(step, t, order);
            var d := step(t + pre.events, domain);
            var next := DomainsSpec(step, t, order + [domain]);
            next.events == pre.events + d.events &&
            (d.result.Ok? ==> next.result == Ok(())) && (d.result.Err? ==> next.result == Err(d.result.error))
  {
    var next := order + [domain];
    assert next[..|next| - 1] == order;
  }

  /** Once a domain fails, later domains change nothing. */
  lemma {:induction false} DomainsStop(step: (seq<Event>, string) -> Run<Outcome>, t: seq<Event>,
                                       order: seq<string>, rest: seq<string>)
    requires DomainsSpec(step, t, order).result.Err?
    ensures DomainsSpec(step, t, order + rest) == DomainsSpec(step, t, order)
    decreases |rest|
  {
    if rest == [] {
      assert order + rest == order;
    } else {
      var all := order + rest;
      assert all[..|all| - 1] == order + rest[..|rest| - 1];
      DomainsStop(step, t, order, rest[..|rest| - 1]);
    }
  }

  /** `order` lists the set `s` once each. */
  ghost predicate Enumerates(order: seq<string>, s: set<string>)
  {
    (forall d :: d in s <==> d in order) && forall i, j :: 0 <= i < j < |order| ==> order[i] != order[j]
  }

  /** `order` is an order in which the domains the CSR names can be visited. */
  ghost predicate OrderFor(o: Oracles, csrFile: string, order: seq<string>)
  {
    var csr := o.csrText(csrFile);
    csr.exitCode == 0 ==> Enumerates(order, DomainSet(csr.commonName, csr.subjectAltNames))
  }

  /**
   * The issuance of a certificate for a CSR: read the CSR's domains,
   * prove control of each, then send the CSR to new-cert (201 expected)
   * and write the returned certificate in PEM armour to `certPath`.
   */
  function IssueSpec(o: Oracles, t: seq<Event>, c: ClientConfig, h: Header, thumbprint: string,
                     csrFile: string, certPath: string, order: seq<string>, fuel: nat): Run<()>
  {
    if o.csrText(csrFile).exitCode != 0 then Run(Err(CsrLoadFailed), [])
    else
      var ds := DomainsSpec(ProveStep(o, c, h, thumbprint, fuel), t, order);
      if ds.result.Err? then ds
      else
        var csr64 := B64(o.csrDer(csrFile));
        var s := SignedSpec(o, t + ds.events, c, h, c.acmeUrl + "/acme/new-cert", NewCertPayload(csr64));
        if s.result.Err? then Run(Err(s.result.error), ds.events + s.events)
        else if s.result.value.code != Some(201) then Run(Err(CertificateRejected(s.result.value.code)), ds.events + s.events)
        else Run(Ok(()), ds.events + s.events + [Written(certPath, Pem(s.result.value.body))])
  }

  /** The stages of an issuance and how each ends. */
  lemma IssueStages(o: Oracles, t: seq<Event>, c: ClientConfig, h: Header, thumbprint: string,
                    csrFile: string, certPath: string, order: seq<string>, fuel: nat)
    ensures var r := IssueSpec(o, t, c, h, thumbprint, csrFile, certPath, order, fuel);
            var ds := DomainsSpec(ProveStep(o, c, h, thumbprint, fuel), t, order);
            var url := c.acmeUrl + "/acme/new-cert";
            var s := SignedSpec(o, t + ds.events, c, h, url, NewCertPayload(B64(o.csrDer(csrFile))));
            (o.csrText(csrFile).exitCode != 0 ==> r == Run(Err(CsrLoadFailed), [])) &&
            (o.csrText(csrFile).exitCode == 0 && ds.result.Err? ==> r == ds) &&
            (o.csrText(csrFile).exitCode == 0 && ds.result.Ok? ==>
               (s.result.Err? || s.result.value.code != Some(201) ==> r.result.Err? && r.events == ds.events + s.events) &&
               (s.result.Ok? && s.result.value.code == Some(201) ==>
                  r == Run(Ok(()), ds.events + s.events + [Written(certPath, Pem(s.result.value.body))])))
  {
  }

  lemma QuietOne(e: Event, dumps: Json -> string)
    requires !e.Posted? && !e.Deployed? && !e.Deleted?
    ensures Quiet([e], dumps)
  {
  }

  /** The events of an issuance that reached new-cert. */
  lemma CertificateEvents(ds: seq<Event>, s: seq<Event>, w: seq<Event>, dumps: Json -> string)
    requires Paired(AdapterEvents(ds)) && NoncedPosts(ds, dumps)
    requires Quiet(s, dumps) && Quiet(w, dumps)
    ensures Paired(AdapterEvents(ds + s + w)) && NoncedPosts(ds + s + w, dumps)
  {
    NoAdapterEvents(s);
    NoAdapterEvents(w);
    AdapterAppend(ds, s);
    AdapterAppend(ds + s, w);
    assert AdapterEvents(ds + s + w) == AdapterEvents(ds);
    NoncedAppend(ds, s, dumps);
    NoncedAppend(ds + s, w, dumps);
  }

  /** The domains' part of an issuance is tidy. */
  lemma ProveStepsTidy(o: Oracles, t: seq<Event>, c: ClientConfig, h: Header, thumbprint: string, order: seq<string>, fuel: nat)
    ensures var ds := DomainsSpec(ProveStep(o, c, h, thumbprint, fuel), t, order);
            Paired(AdapterEvents(ds.events)) && NoncedPosts(ds.events, o.dumps) && (ds.result.Err? ==> ds.events != [])
  {
    ProveStepTidy(o, c, h, thumbprint, fuel);
    DomainsFacts(ProveStep(o, c, h, thumbprint, fuel), t, order, o.dumps);
  }

  /**
   * A run that ends by writing to `certPath` the PEM armour of the body of
   * the 201 reply to the request posted to `url` just before.
   */
  predicate WritesCertificate(events: seq<Event>, url: string, certPath: string)
  {
    |events| >= 2 &&
    var written := events[|events| - 1];
    var post := events[|events| - 2];
    written.Written? && written.path == certPath &&
    post.Posted? && post.url == url && post.reply.code == Some(201) &&
    PemDecode(written.text) == Some(post.reply.body)
  }

  /** An issuance leaves no TXT record behind and sends every request with the nonce fetched right before it. */
  lemma IssueTidy(o: Oracles, t: seq<Event>, c: ClientConfig, h: Header, thumbprint: string,
                  csrFile: string, certPath: string, order: seq<string>, fuel: nat)
    ensures var r := IssueSpec(o, t, c, h, thumbprint, csrFile, certPath, order, fuel);
            Paired(AdapterEvents(r.events)) && NoncedPosts(r.events, o.dumps)
  {
    IssueStages(o, t, c, h, thumbprint, csrFile, certPath, order, fuel);
    if o.csrText(csrFile).exitCode == 0 {
      var ds := DomainsSpec(ProveStep(o, c, h, thumbprint, fuel), t, order);
      ProveStepsTidy(o, t, c, h, thumbprint, order, fuel);
      if ds.result.Ok? {
        var url := c.acmeUrl + "/acme/new-cert";
        var payload := NewCertPayload(B64(o.csrDer(csrFile)));
        var s := SignedSpec(o, t + ds.events, c, h, url, payload);
        SignedQuiet(o, t + ds.events, c, h, url, payload);
        if s.result.Ok? && s.result.value.code == Some(201) {
          var text := Pem(s.result.value.body);
          QuietOne(Written(certPath, text), o.dumps);
          CertificateEvents(ds.events, s.events, [Written(certPath, text)], o.dumps);
        } else {
          CertificateEvents(ds.events, s.events, [], o.dumps);
          assert ds.events + s.events + [] == ds.events + s.events;
        }
      }
    }
  }

  /**
   * A successful issuance ends with the new-cert request answered with
   * 201 and the writing of `certPath`, whose PEM text decodes to the
   * certificate the CA returned.
   */
  lemma IssueWrites(o: Oracles, t: seq<Event>, c: ClientConfig, h: Header, thumbprint: string,
                    csrFile: string, certPath: string, order: seq<string>, fuel: nat)
    requires IssueSpec(o, t, c, h, thumbprint, csrFile, certPath, order, fuel).result.Ok?
    ensures o.csrText(csrFile).exitCode == 0
    ensures WritesCertificate(IssueSpec(o, t, c, h, thumbprint, csrFile, certPath, order, fuel).events,
                              c.acmeUrl + "/acme/new-cert", certPath)
  {
    IssueStages(o, t, c, h, thumbprint, csrFile, certPath, order, fuel);
    var ds := DomainsSpec(ProveStep(o, c, h, thumbprint, fuel), t, order);
    var url := c.acmeUrl + "/acme/new-cert";
    var payload := NewCertPayload(B64(o.csrDer(csrFile)));
    var s := SignedSpec(o, t + ds.events, c, h, url, payload);
    SignedShape(o, t + ds.events, c, h, url, payload);
    CertificateWritten(ds.events, s.events, url, certPath);
  }

  /** Writing the PEM of the body a 201 reply carried, after that POST, writes the certificate. */
  lemma CertificateWritten(ds: seq<Event>, s: seq<Event>, url: string, certPath: string)
    requires |s| == 2 && s[1].Posted? && s[1].url == url && s[1].reply.code == Some(201)
    ensures WritesCertificate(ds + s + [Written(certPath, Pem(s[1].reply.body))], url, certPath)
  {
    PemRoundTrip(s[1].reply.body);
    var all := ds + s + [Written(certPath, Pem(s[1].reply.body))];
    assert all[|all| - 2] == s[1];
  }

  // ----- The renewal gate and sign -----

  /** The certificate's path and whether a certificate there is still valid for the configured margin. */
  datatype Gate = Gate(certPath: string, stillValid: bool)

  /**
   * The certificate path is the absolute form of the CSR's name with its
   * last extension replaced by "crt"; the certificate is still valid when
   * that file exists and openssl's -checkend succeeds on it.
   */
  function RenewalGate(o: Oracles, t: seq<Event>, c: ClientConfig, csrFile: string, cwd: string): Gate
  {
    var path := Paths.AbsPath(cwd, CertFileName(csrFile));
    Gate(path, o.isFile(t, path) && o.checkend(t, c.checkend, path))
  }

  /** What sign does as written: it evaluates the gate and returns, whatever the gate says. */
  function SignSpec(o: Oracles, t: seq<Event>, c: ClientConfig, csrFile: string, cwd: string): Run<Gate>
  {
    Run(Ok(RenewalGate(o, t, c, csrFile, cwd)), [])
  }

  datatype Renewal = StillValid | Renewed

  /** sign as evidently intended: a certificate that is still valid is kept; otherwise one is issued. */
  function SignAndIssueSpec(o: Oracles, t: seq<Event>, c: ClientConfig, h: Header, thumbprint: string,
                            csrFile: string, cwd: string, order: seq<string>, fuel: nat): Run<Renewal>
  {
    var g := RenewalGate(o, t, c, csrFile, cwd);
    if g.stillValid then Run(Ok(StillValid), [])
    else
      var i := IssueSpec(o, t, c, h, thumbprint, csrFile, g.certPath, order, fuel);
      Run(if i.result.Ok? then Ok(Renewed) else Err(i.result.error), i.events)
  }

  /**
   * As written, sign never talks to the CA or the DNS: even when the
   * certificate is missing or about to expire and the CSR reads, it
   * appends no event, while the intended flow sends at least one request.
   */
  lemma SignSkipsRenewal(o: Oracles, t: seq<Event>, c: ClientConfig, h: Header, thumbprint: string,
                         csrFile: string, cwd: string, order: seq<string>, fuel: nat)
    requires !RenewalGate(o, t, c, csrFile, cwd).stillValid && o.csrText(csrFile).exitCode == 0
    ensures SignSpec(o, t, c, csrFile, cwd).events == []
    ensures SignAndIssueSpec(o, t, c, h, thumbprint, csrFile, cwd, order, fuel).events != []
  {
    IssueRuns(o, t, c, h, thumbprint, csrFile, RenewalGate(o, t, c, csrFile, cwd).certPath, order, fuel);
  }

  /** An issuance whose CSR reads talks to the CA or the DNS at least once. */
  lemma IssueRuns(o: Oracles, t: seq<Event>, c: ClientConfig, h: Header, thumbprint: string,
                  csrFile: string, certPath: string, order: seq<string>, fuel: nat)
    requires o.csrText(csrFile).exitCode == 0
    ensures IssueSpec(o, t, c, h, thumbprint, csrFile, certPath, order, fuel).events != []
  {
    IssueStages(o, t, c, h, thumbprint, csrFile, certPath, order, fuel);
    ProveStepsTidy(o, t, c, h, thumbprint, order, fuel);
    var ds := DomainsSpec(ProveStep(o, c, h, thumbprint, fuel), t, order);
    if ds.result.Ok? {
      SignedShape(o, t + ds.events, c, h, c.acmeUrl + "/acme/new-cert", NewCertPayload(B64(o.csrDer(csrFile))));
    }
  }

  /**
   * The intended sign: a still-valid certificate means no events at all;
   * a renewal ends with the certificate written, in PEM armour, to the
   * gate's path; and no TXT record is left behind.
   */
  lemma SignAndIssueRenews(o: Oracles, t: seq<Event>, c: ClientConfig, h: Header, thumbprint: string,
                           csrFile: string, cwd: string, order: seq<string>, fuel: nat)
    ensures var g := RenewalGate(o, t, c, csrFile, cwd);
            var r := SignAndIssueSpec(o, t, c, h, thumbprint, csrFile, cwd, order, fuel);
            (g.stillValid <==> r == Run(Ok(StillValid), [])) &&
            Paired(AdapterEvents(r.events)) && NoncedPosts(r.events, o.dumps) &&
            (r.result == Ok(Renewed) ==>
               WritesCertificate(r.events, c.acmeUrl + "/acme/new-cert", g.certPath))
  {
    var g := RenewalGate(o, t, c, csrFile, cwd);
    if !g.stillValid {
      IssueTidy(o, t, c, h, thumbprint, csrFile, g.certPath, order, fuel);
      if IssueSpec(o, t, c, h, thumbprint, csrFile, g.certPath, order, fuel).result.Ok? {
        IssueWrites(o, t, c, h, thumbprint, csrFile, g.certPath, order, fuel);
      }
      RenewalNotStillValid(o, t, c, h, thumbprint, csrFile, cwd, order, fuel);
    }
  }

  /** A certificate that needs renewal never ends the intended flow as still valid. */
  lemma RenewalNotStillValid(o: Oracles, t: seq<Event>, c: ClientConfig, h: Header, thumbprint: string,
                             csrFile: string, cwd: string, order: seq<string>, fuel: nat)
    requires !RenewalGate(o, t, c, csrFile, cwd).stillValid
    ensures SignAndIssueSpec(o, t, c, h, thumbprint, csrFile, cwd, order, fuel).result != Ok(StillValid)
  {
  }

  // ----- Enumerating the domain set -----

  /** Some order of a finite set of domains. */
  ghost function EnumerateSet(s: set<string>): (r: seq<string>)
    ensures Enumerates(r, s)
    decreases |s|
  {
    if s == {} then []
    else
      var d :| d in s;
      var rest := EnumerateSet(s - {d});
      EnumeratesCons(d, rest, s);
      [d] + rest
  }

  lemma EnumeratesCons(d: string, rest: seq<string>, s: set<string>)
    requires d in s && Enumerates(rest, s - {d})
    ensures Enumerates([d] + rest, s)
  {
    var next := [d] + rest;
    forall i, j | 0 <= i < j < |next| ensures next[i] != next[j] {
      assert next[j] == rest[j - 1];
      if i > 0 {
        assert next[i] == rest[i - 1];
      }
    }
  }

  /** An order for the CSR's domains whenever the CSR reads. */
  ghost function SomeOrder(o: Oracles, csrFile: string): (r: seq<string>)
    ensures OrderFor(o, csrFile, r)
  {
    var csr := o.csrText(csrFile);
    if csr.exitCode == 0 then EnumerateSet(DomainSet(csr.commonName, csr.subjectAltNames)) else []
  }

  lemma EnumeratesSnoc(order: seq<string>, s: set<string>, d: string)
    requires Enumerates(order, s) && d !in s
    ensures Enumerates(order + [d], s + {d})
  {
    var next := order + [d];
    forall i, j | 0 <= i < j < |next| ensures next[i] != next[j] {
      if j < |order| {
        assert next[i] == order[i] && next[j] == order[j];
      } else {
        assert next[i] == order[i] && next[j] == d;
      }
    }
  }

  lemma EnumeratesAppend(a: seq<string>, sa: set<string>, b: seq<string>, sb: set<string>)
    requires Enumerates(a, sa) && Enumerates(b, sb) && sa !! sb
    ensures Enumerates(a + b, sa + sb)
  {
    var ab := a + b;
    forall i, j | 0 <= i < j < |ab| ensures ab[i] != ab[j] {
      if j < |a| {
        assert ab[i] == a[i] && ab[j] == a[j];
      } else if i >= |a| {
        assert ab[i] == b[i - |a|] && ab[j] == b[j - |a|];
      } else {
        assert ab[i] == a[i] && ab[j] == b[j - |a|];
        assert ab[i] in sa && ab[j] in sb;
      }
    }
  }

  /** The wait before its first check, in terms of that check and the loop test after it. */
  lemma WaitStart(o: Oracles, t: seq<Event>, domain: string)
    ensures var check := CheckSpec(o, t, domain);
            var w := WaitFrom(o, t, domain, 0);
            (check.result.Err? ==> w == check) &&
            (check.result.Ok? ==>
               var rest := Continue(o, t + check.events, domain, 0, check.result.value);
               w.result == rest.result && w.events == check.events + rest.events)
  {
  }

  /** One more round of the wait: sleep 5 seconds, check again, and the loop test after it. */
  lemma WaitStep(o: Oracles, t: seq<Event>, domain: string, count: nat)
    requires count < MaxRetries
    ensures var t1 := t + [Slept(5)];
            var check := CheckSpec(o, t1, domain);
            var c0 := Continue(o, t, domain, count, false);
            (check.result.Err? ==> c0.result == check.result && c0.events == [Slept(5)] + check.events) &&
            (check.result.Ok? ==>
               var c1 := Continue(o, t1 + check.events, domain, count + 1, check.result.value);
               c0.result == c1.result && c0.events == [Slept(5)] + check.events + c1.events)
  {
    var t1 := t + [Slept(5)];
    var check := CheckSpec(o, t1, domain);
    var w := WaitFrom(o, t1, domain, count + 1);
    assert Continue(o, t, domain, count, false) == Run(w.result, [Slept(5)] + w.events);
    if check.result.Ok? {
      var c1 := Continue(o, t1 + check.events, domain, count + 1, check.result.value);
      assert w == Run(c1.result, check.events + c1.events);
      Assoc2([Slept(5)], check.events, c1.events);
    }
  }

  /** One round of the poll after a "pending" answer. */
  lemma PollStep(o: Oracles, t: seq<Event>, uri: string, fuel: nat)
    requires fuel > 0 && o.poll(t, uri) == Status("pending")
    ensures var rest := PollFrom(o, t + [ChallengePolled(uri, Status("pending"))] + [Slept(1)], uri, fuel - 1);
            var p := PollFrom(o, t, uri, fuel);
            p.result == rest.result && p.events == [ChallengePolled(uri, Status("pending")), Slept(1)] + rest.events
  {
    assert t + [ChallengePolled(uri, Status("pending"))] + [Slept(1)] == t + [ChallengePolled(uri, Status("pending")), Slept(1)];
  }

  /** A run that failed after `done`, completed to an order of all the domains with the same run. */
  lemma FailedDomains(step: (seq<Event>, string) -> Run<Outcome>, t: seq<Event>, order: seq<string>,
                      domains: set<string>, left: set<string>)
    returns (all: seq<string>)
    requires left <= domains && Enumerates(order, domains - left) && DomainsSpec(step, t, order).result.Err?
    ensures Enumerates(all, domains) && DomainsSpec(step, t, all) == DomainsSpec(step, t, order)
  {
    var rest := EnumerateSet(left);
    EnumeratesAppend(order, domains - left, rest, left);
    assert domains - left + left == domains;
    DomainsStop(step, t, order, rest);
    all := order + rest;
  }

  /** Visiting one more of the remaining domains extends the order of those visited. */
  lemma PickNext(order: seq<string>, domains: set<string>, remaining: set<string>, domain: string)
    requires remaining <= domains && Enumerates(order, domains - remaining) && domain in remaining
    ensures remaining - {domain} <= domains && |remaining - {domain}| < |remaining|
    ensures Enumerates(order + [domain], domains - (remaining - {domain}))
  {
    EnumeratesSnoc(order, domains - remaining, domain);
    assert (domains - remaining) + {domain} == domains - (remaining - {domain});
  }

  // ----- The client -----

  /** The client of one account: its settings, the world it talks to, and what it read from its key. */
  class Client {
    const config: ClientConfig
    const world: World
    var header: Header
    var thumbprint: string

    constructor(config: ClientConfig, world: World)
      ensures this.config == config && this.world == world
    {
      this.config := config;
      this.world := world;
    }

    /** Creates a client and loads its account key; a key that fails to load is an error. */
    static method New(config: ClientConfig, world: World) returns (r: Result<Client, Error>)
      ensures var k := AccountKey(world.o.keyText(config.accountKey), world.o.sha256);
              (r.Ok? <==> k.Ok?) && (r.Err? ==> r.error == k.error) &&
              (r.Ok? ==> fresh(r.value) && r.value.config == config && r.value.world == world &&
                         r.value.header == k.value.0 && r.value.thumbprint == k.value.1)
    {
      var client := new Client(config, world);
      var loaded := client.LoadAccountKey();
      if loaded.Err? {
        return Err(loaded.error);
      }
      return Ok(client);
    }

    /** Reads the account key through openssl and sets the JWS header and the thumbprint. */
    method LoadAccountKey() returns (r: Result<(), Error>)
      modifies this
      ensures var k := AccountKey(world.o.keyText(config.accountKey), world.o.sha256);
              (r.Ok? <==> k.Ok?) &&
              (k.Ok? ==> header == k.value.0 && thumbprint == k.value.1) &&
              (k.Err? ==> r == Err(k.error) && header == old(header) && thumbprint == old(thumbprint))
    {
      var key := world.o.keyText(config.accountKey);
      if key.exitCode != 0 {
        return Err(KeyLoadFailed);
      }
      if key.fields.None? {
        return Err(KeyParseFailed);
      }
      var jwk := JwkOf(key.fields.value.0, key.fields.value.1);
      if jwk.None? {
        return Err(KeyParseFailed);
      }
      header := Header("RS256", jwk.value);
      thumbprint := Thumbprint(jwk.value, world.o.sha256);
      return Ok(());
    }

    /** A signed POST of `payload` to `url`. */
    method SendSignedRequest(url: string, payload: Json) returns (r: Result<Reply, Error>)
      modifies world
      ensures var s := SignedSpec(world.o, old(world.trace), config, header, url, payload);
              r == s.result && world.trace == old(world.trace) + s.events
    {
      var payload64 := Encoded(payload, world.o.dumps);
      var nonce := world.FetchNonce(config.acmeUrl + "/directory");
      if nonce.None? {
        return Err(NonceUnavailable);
      }
      var protected64 := Encoded(ProtectedJson(header, nonce.value), world.o.dumps);
      var signature := world.o.sign(config.accountKey, Utf8(SigningInput(protected64, payload64)));
      if signature.None? {
        return Err(SigningFailed);
      }
      var reply := world.Post(url, Envelope(header, protected64, payload64, B64(signature.value)));
      return Ok(reply);
    }

    /** Registers the account. */
    method RegAccount() returns (r: Result<Registration, Error>)
      modifies world
      ensures var g := RegSpec(world.o, old(world.trace), config, header);
              r == g.result && world.trace == old(world.trace) + g.events
    {
      var reply := SendSignedRequest(config.acmeUrl + "/acme/new-reg", RegPayload(config.contactEmail));
      if reply.Err? {
        return Err(reply.error);
      }
      if reply.value.code == Some(201) {
        return Ok(Registered);
      } else if reply.value.code == Some(409) {
        return Ok(AlreadyRegistered);
      }
      return Err(RegistrationRejected(reply.value.code));
    }

    /** Whether the TXT record of the domain's challenge name has any record. */
    static method CheckDomain(world: World, domain: string) returns (r: Result<bool, Error>)
      modifies world
      ensures var c := CheckSpec(world.o, old(world.trace), domain);
              r == c.result && world.trace == old(world.trace) + c.events
    {
      var answer := world.QueryTxt("_acme-challenge." + domain);
      match answer
      case Answers(n) => return Ok(n > 0);
      case DnsException => return Ok(false);
      case OtherException => return Err(UnexpectedDnsError);
    }

    /** Checks the domain, then retries every 5 seconds, at most 24 times, until the record is there. */
    static method WaitChallengeDeployed(world: World, domain: string) returns (r: Result<bool, Error>)
      modifies world
      ensures var w := WaitFrom(world.o, old(world.trace), domain, 0);
              r == w.result && world.trace == old(world.trace) + w.events
    {
      ghost var t0 := world.trace;
      WaitStart(world.o, t0, domain);
      var count := 0;
      var isDeployed := CheckDomain(world, domain);
      if isDeployed.Err? {
        return Err(isDeployed.error);
      }
      Assoc2(t0, CheckSpec(world.o, t0, domain).events, Continue(world.o, world.trace, domain, 0, isDeployed.value).events);
      while count < MaxRetries && !isDeployed.value
        invariant count <= MaxRetries && isDeployed.Ok?
        invariant WaitFrom(world.o, t0, domain, 0).result == Continue(world.o, world.trace, domain, count, isDeployed.value).result
        invariant t0 + WaitFrom(world.o, t0, domain, 0).events ==
                  world.trace + Continue(world.o, world.trace, domain, count, isDeployed.value).events
        decreases MaxRetries - count
      {
        ghost var before := world.trace;
        WaitStep(world.o, before, domain, count);
        world.Sleep(5);
        count := count + 1;
        isDeployed := CheckDomain(world, domain);
        ghost var check := CheckSpec(world.o, before + [Slept(5)], domain);
        if isDeployed.Err? {
          Assoc2(before, [Slept(5)], check.events);
          return Err(isDeployed.error);
        }
        Assoc3(before, [Slept(5)], check.events, Continue(world.o, world.trace, domain, count, isDeployed.value).events);
      }
      assert world.trace + [] == world.trace;
      return isDeployed;
    }

    /** GETs the challenge, sleeping a second after each "pending", until it is valid or fails. */
    method PollChallenge(uri: string, fuel: nat) returns (r: Result<(), Error>)
      modifies world
      ensures var p := PollFrom(world.o, old(world.trace), uri, fuel);
              r == p.result && world.trace == old(world.trace) + p.events
    {
      ghost var t0 := world.trace;
      var left := fuel;
      while true
        invariant PollFrom(world.o, t0, uri, fuel).result == PollFrom(world.o, world.trace, uri, left).result
        invariant t0 + PollFrom(world.o, t0, uri, fuel).events == world.trace + PollFrom(world.o, world.trace, uri, left).events
        decreases left
      {
        if left == 0 {
          return Err(StillPending);
        }
        ghost var before := world.trace;
        var answer := world.Poll(uri);
        match answer
        case PollFailed =>
          return Err(ChallengeCheckFailed);
        case Status(status) =>
          if status == "pending" {
            PollStep(world.o, before, uri, left);
            world.Sleep(1);
            left := left - 1;
            PairAssoc(before, ChallengePolled(uri, answer), Slept(1), PollFrom(world.o, world.trace, uri, left).events);
          } else if status == "valid" {
            return Ok(());
          } else {
            return Err(ChallengeInvalid(status));
          }
      }
    }

    /** Requests a challenge for the domain and derives what the TXT record needs. */
    method RequestChallenge(domain: string) returns (r: Result<Authorization, Error>)
      modifies world
      ensures var a := AuthorizeSpec(world.o, old(world.trace), config, header, thumbprint, domain);
              r == a.result && world.trace == old(world.trace) + a.events
    {
      var reply := SendSignedRequest(config.acmeUrl + "/acme/new-authz", NewAuthzPayload(domain));
      if reply.Err? {
        return Err(reply.error);
      }
      if reply.value.code != Some(201) {
        return Err(ChallengeRequestRejected(reply.value.code));
      }
      var challenges := world.o.challenges(reply.value.body);
      if challenges.None? {
        return Err(MalformedChallenges);
      }
      var challenge := FirstDns01(challenges.value);
      if challenge.None? {
        return Err(NoDns01Challenge);
      }
      var keyAuthorization := KeyAuthorization(challenge.value.token, thumbprint);
      var dnsToken := DnsToken(keyAuthorization, world.o.sha256);
      var name := SplitDomain(domain);
      if name.None? {
        return Err(BadDomain(domain));
      }
      return Ok(Authorization(challenge.value, keyAuthorization, dnsToken, name.value));
    }

    /** With the record deployed: wait for it, and when it is there trigger the challenge and poll it. */
    method AwaitValidation(domain: string, z: Authorization, fuel: nat) returns (r: Result<Outcome, Error>)
      modifies world
      ensures var g := GuardedSpec(world.o, old(world.trace), config, header, domain, z, fuel);
              r == g.result && world.trace == old(world.trace) + g.events
    {
      ghost var t0 := world.trace;
      var isDeployed := WaitChallengeDeployed(world, domain);
      ghost var w := WaitFrom(world.o, t0, domain, 0);
      if isDeployed.Err? {
        return Err(isDeployed.error);
      }
      if !isDeployed.value {
        return Ok(NotPropagated);
      }
      var reply := SendSignedRequest(z.challenge.uri, ChallengePayload(z.keyAuthorization));
      ghost var n := SignedSpec(world.o, t0 + w.events, config, header, z.challenge.uri, ChallengePayload(z.keyAuthorization));
      Assoc2(t0, w.events, n.events);
      if reply.Err? {
        return Err(reply.error);
      }
      if reply.value.code != Some(202) {
        return Err(TriggerRejected(reply.value.code));
      }
      var polled := PollChallenge(z.challenge.uri, fuel);
      ghost var p := PollFrom(world.o, t0 + w.events + n.events, z.challenge.uri, fuel);
      Assoc3(t0, w.events, n.events, p.events);
      if polled.Err? {
        return Err(polled.error);
      }
      return Ok(Verified);
    }

    /** Proves control of one domain: challenge, deploy, the guarded part, and the deletion in any case. */
    method VerifyDomain(domain: string, fuel: nat) returns (r: Result<Outcome, Error>)
      modifies world
      ensures var p := ProveSpec(world.o, old(world.trace), config, header, thumbprint, domain, fuel);
              r == p.result && world.trace == old(world.trace) + p.events
    {
      ghost var t0 := world.trace;
      ProveStages(world.o, t0, config, header, thumbprint, domain, fuel);
      var z := RequestChallenge(domain);
      ghost var a := AuthorizeSpec(world.o, t0, config, header, thumbprint, domain);
      if z.Err? {
        return Err(z.error);
      }
      var record := world.Deploy(z.value.name.base, z.value.name.sub, z.value.dnsToken);
      if record.None? {
        Assoc2(t0, a.events, [DeployFailed(z.value.name.base, z.value.name.sub, z.value.dnsToken)]);
        return Err(DeployRaised);
      }
      ghost var deployed := Deployed(z.value.name.base, z.value.name.sub, z.value.dnsToken, record.value);
      r := AwaitValidation(domain, z.value, fuel);
      ghost var g := GuardedSpec(world.o, t0 + a.events + [deployed], config, header, domain, z.value, fuel);
      var ok := world.Delete(record.value);
      if !ok {
        r := Err(DeleteRaised);
      }
      Assoc4(t0, a.events, [deployed], g.events, [Deleted(record.value, ok)]);
    }

    /** Proves control of one more domain, extending a run of the domain loop that has not failed. */
    method VerifyNext(domain: string, fuel: nat, ghost t0: seq<Event>, ghost order: seq<string>)
      returns (r: Result<(), Error>)
      modifies world
      requires DomainsSpec(ProveStep(world.o, config, header, thumbprint, fuel), t0, order).result == Ok(())
      requires world.trace == t0 + DomainsSpec(ProveStep(world.o, config, header, thumbprint, fuel), t0, order).events
      ensures var ds := DomainsSpec(ProveStep(world.o, config, header, thumbprint, fuel), t0, order + [domain]);
              r == ds.result && world.trace == t0 + ds.events
    {
      ghost var step := ProveStep(world.o, config, header, thumbprint, fuel);
      ghost var pre := DomainsSpec(step, t0, order);
      var proved := VerifyDomain(domain, fuel);
      ghost var d := ProveSpec(world.o, t0 + pre.events, config, header, thumbprint, domain, fuel);
      assert step(t0 + pre.events, domain) == d;
      DomainsSnoc(step, t0, order, domain);
      Assoc2(t0, pre.events, d.events);
      if proved.Err? {
        r := Err(proved.error);
      } else {
        r := Ok(());
      }
    }

    /**
     * Proves control of each domain in the order the set yields them,
     * stopping at the first failure.
     */
    method VerifyDomains(domains: set<string>, fuel: nat) returns (r: Result<(), Error>, ghost order: seq<string>)
      modifies world
      ensures Enumerates(order, domains)
      ensures var ds := DomainsSpec(ProveStep(world.o, config, header, thumbprint, fuel), old(world.trace), order);
              r == ds.result && world.trace == old(world.trace) + ds.events
    {
      ghost var t0 := world.trace;
      ghost var step := ProveStep(world.o, config, header, thumbprint, fuel);
      var remaining := domains;
      order := [];
      assert world.trace + [] == world.trace;
      while remaining != {}
        invariant remaining <= domains
        invariant Enumerates(order, domains - remaining)
        invariant DomainsSpec(step, t0, order).result == Ok(())
        invariant world.trace == t0 + DomainsSpec(step, t0, order).events
        decreases |remaining|
      {
        var domain :| domain in remaining;
        var proved := VerifyNext(domain, fuel, t0, order);
        ghost var next := order + [domain];
        PickNext(order, domains, remaining, domain);
        if proved.Err? {
          order := FailedDomains(step, t0, next, domains, remaining - {domain});
          return proved, order;
        }
        order := next;
        remaining := remaining - {domain};
      }
      assert domains - remaining == domains;
      r := Ok(());
    }

    /**
     * Issues a certificate for the CSR: reads its domains, proves control
     * of each, then sends the CSR to new-cert and writes the certificate.
     */
    method Issue(csrFile: string, certPath: string, fuel: nat) returns (r: Result<(), Error>, ghost order: seq<string>)
      modifies world
      ensures OrderFor(world.o, csrFile, order)
      ensures var i := IssueSpec(world.o, old(world.trace), config, header, thumbprint, csrFile, certPath, order, fuel);
              r == i.result && world.trace == old(world.trace) + i.events
    {
      ghost var t0 := world.trace;
      var csr := world.o.csrText(csrFile);
      if csr.exitCode != 0 {
        order := [];
        assert world.trace + [] == world.trace;
        return Err(CsrLoadFailed), order;
      }
      var domains := ExtractDomains(csr.commonName, csr.subjectAltNames);
      var proved;
      proved, order := VerifyDomains(domains, fuel);
      ghost var ds := DomainsSpec(ProveStep(world.o, config, header, thumbprint, fuel), t0, order);
      IssueStages(world.o, t0, config, header, thumbprint, csrFile, certPath, order, fuel);
      if proved.Err? {
        return Err(proved.error), order;
      }
      var der := world.o.csrDer(csrFile);
      var reply := SendSignedRequest(config.acmeUrl + "/acme/new-cert", NewCertPayload(B64(der)));
      ghost var sent := SignedSpec(world.o, t0 + ds.events, config, header, config.acmeUrl + "/acme/new-cert",
                                   NewCertPayload(B64(der)));
      Assoc2(t0, ds.events, sent.events);
      if reply.Err? {
        return Err(reply.error), order;
      }
      if reply.value.code != Some(201) {
        return Err(CertificateRejected(reply.value.code)), order;
      }
      world.Write(certPath, Pem(reply.value.body));
      Assoc3(t0, ds.events, sent.events, [Written(certPath, Pem(reply.value.body))]);
      return Ok(()), order;
    }

    /**
     * sign as written: computes the certificate's path and whether a
     * certificate there is still valid, and returns either way.
     */
    method Sign(csrFile: string, cwd: string) returns (g: Gate)
      ensures g == RenewalGate(world.o, world.trace, config, csrFile, cwd)
    {
      var certPath := Paths.AbsPath(cwd, CertFileName(csrFile));
      var stillValid := false;
      if world.o.isFile(world.trace, certPath) {
        stillValid := world.o.checkend(world.trace, config.checkend, certPath);
      }
      return Gate(certPath, stillValid);
    }

    /** sign as evidently intended: keep a still-valid certificate, otherwise issue one to the gate's path. */
    method SignAndIssue(csrFile: string, cwd: string, fuel: nat) returns (r: Result<Renewal, Error>, ghost order: seq<string>)
      modifies world
      ensures OrderFor(world.o, csrFile, order)
      ensures var s := SignAndIssueSpec(world.o, old(world.trace), config, header, thumbprint, csrFile, cwd, order, fuel);
              r == s.result && world.trace == old(world.trace) + s.events
    {
      var gate := Sign(csrFile, cwd);
      if gate.stillValid {
        order := SomeOrder(world.o, csrFile);
        assert world.trace + [] == world.trace;
        return Ok(StillValid), order;
      }
      var issued;
      issued, order := Issue(csrFile, gate.certPath, fuel);
      if issued.Err? {
        return Err(issued.error), order;
      }
      return Ok(Renewed), order;
    }
  }
}
