/**
 * Everything the client talks to: the CA over HTTP, the DNS resolver, the
 * DNS adapter, openssl, the clock and the file system. Every answer the
 * world gives is a function of the events that happened before it (the
 * trace), so a run of the client is fixed by the oracles, and what the
 * client did is recorded in the trace.
 */
module World {
  import opened Wrappers
  import opened Base64
  import opened Jose
  import AcmeRules

  /** An HTTP reply: the status code (None when the error carries none) and the body. */
  datatype Reply = Reply(code: Option<int>, body: seq<byte>)

  /** What a TXT query answers: some records, a resolver exception, or any other exception. */
  datatype DnsAnswer = Answers(count: nat) | DnsException | OtherException

  /** A GET of a challenge URI: an I/O error, or the "status" of the JSON it returns. */
  datatype PollReply = PollFailed | Status(status: string)

  /** The adapter's handle of a deployed TXT record. */
  datatype Record = Record(zone: string, id: nat)

  /** openssl rsa -text: its exit code and, when its text matches, the modulus digits and the exponent. */
  datatype KeyText = KeyText(exitCode: int, fields: Option<(string, nat)>)

  /** openssl req -text: its exit code, and the CN and the SAN line when the text has them. */
  datatype CsrText = CsrText(exitCode: int, commonName: Option<string>, subjectAltNames: Option<string>)

  datatype Event =
    | NonceFetched(url: string, nonce: Option<string>)
    | Posted(url: string, envelope: Envelope, reply: Reply)
    | ChallengePolled(uri: string, status: PollReply)
    | DnsQueried(name: string, answer: DnsAnswer)
    | Slept(seconds: nat)
    | DeployFailed(base: string, sub: string, token: string)
    | Deployed(base: string, sub: string, token: string, record: Record)
    | Deleted(record: Record, ok: bool)
    | Written(path: string, text: string)

  /**
   * The world's answers. Those that depend on what happened before get
   * the trace so far; openssl's views of the key and the CSR, the
   * signature, SHA-256, json.dumps and json.loads of the challenge list
   * are fixed functions.
   */
  datatype Oracles = Oracles(
    nonce: (seq<Event>, string) -> Option<string>,
    post: (seq<Event>, string, Envelope) -> Reply,
    poll: (seq<Event>, string) -> PollReply,
    dns: (seq<Event>, string) -> DnsAnswer,
    deploy: (seq<Event>, string, string, string) -> Option<Record>,
    delete: (seq<Event>, Record) -> bool,
    isFile: (seq<Event>, string) -> bool,
    checkend: (seq<Event>, string, string) -> bool,
    keyText: string -> KeyText,
    csrText: string -> CsrText,
    csrDer: string -> seq<byte>,
    sign: (string, seq<byte>) -> Option<seq<byte>>,
    sha256: seq<byte> -> seq<byte>,
    dumps: Json -> string,
    challenges: seq<byte> -> Option<seq<AcmeRules.Challenge>>)

  /** The world as the client sees it: fixed oracles and the trace of what has happened. */
  class World {
    const o: Oracles
    var trace: seq<Event>

    constructor(o: Oracles)
      ensures this.o == o && trace == []
    {
      this.o := o;
      trace := [];
    }

    /** The Replay-Nonce header of a GET of `url`; None when the request fails. */
    method FetchNonce(url: string) returns (nonce: Option<string>)
      modifies this
      ensures nonce == o.nonce(old(trace), url)
      ensures trace == old(trace) + [NonceFetched(url, nonce)]
    {
      nonce := o.nonce(trace, url);
      trace := trace + [NonceFetched(url, nonce)];
    }

    /** POSTs a JWS envelope. */
    method Post(url: string, envelope: Envelope) returns (reply: Reply)
      modifies this
      ensures reply == o.post(old(trace), url, envelope)
      ensures trace == old(trace) + [Posted(url, envelope, reply)]
    {
      reply := o.post(trace, url, envelope);
      trace := trace + [Posted(url, envelope, reply)];
    }

    /** GETs a challenge's status. */
    method Poll(uri: string) returns (answer: PollReply)
      modifies this
      ensures answer == o.poll(old(trace), uri)
      ensures trace == old(trace) + [ChallengePolled(uri, answer)]
    {
      answer := o.poll(trace, uri);
      trace := trace + [ChallengePolled(uri, answer)];
    }

    /** Queries the TXT records of `name`. */
    method QueryTxt(name: string) returns (answer: DnsAnswer)
      modifies this
      ensures answer == o.dns(old(trace), name)
      ensures trace == old(trace) + [DnsQueried(name, answer)]
    {
      answer := o.dns(trace, name);
      trace := trace + [DnsQueried(name, answer)];
    }

    method Sleep(seconds: nat)
      modifies this
      ensures trace == old(trace) + [Slept(seconds)]
    {
      trace := trace + [Slept(seconds)];
    }

    /** The adapter's deploy_challenge; None when it raises. */
    method Deploy(base: string, sub: string, token: string) returns (record: Option<Record>)
      modifies this
      ensures record == o.deploy(old(trace), base, sub, token)
      ensures trace == old(trace) + [if record.Some? then Deployed(base, sub, token, record.value)
                                     else DeployFailed(base, sub, token)]
    {
      record := o.deploy(trace, base, sub, token);
      trace := trace + [if record.Some? then Deployed(base, sub, token, record.value) else DeployFailed(base, sub, token)];
    }

    /** The adapter's delete_challenge; false when it raises. */
    method Delete(record: Record) returns (ok: bool)
      modifies this
      ensures ok == o.delete(old(trace), record)
      ensures trace == old(trace) + [Deleted(record, ok)]
    {
      ok := o.delete(trace, record);
      trace := trace + [Deleted(record, ok)];
    }

    method Write(path: string, text: string)
      modifies this
      ensures trace == old(trace) + [Written(path, text)]
    {
      trace := trace + [Written(path, text)];
    }
  }

  /** The adapter's part of a trace: its deployments and deletions, in order. */
  function AdapterEvents(t: seq<Event>): (r: seq<Event>)
    ensures forall i :: 0 <= i < |r| ==> r[i].Deployed? || r[i].Deleted?
  {
    if t == [] then []
    else (if t[0].Deployed? || t[0].Deleted? then [t[0]] else []) + AdapterEvents(t[1..])
  }

  lemma {:induction false} AdapterAppend(a: seq<Event>, b: seq<Event>)
    ensures AdapterEvents(a + b) == AdapterEvents(a) + AdapterEvents(b)
    decreases |a|
  {
    if a == [] {
      assert a + b == b;
    } else {
      assert (a + b)[1..] == a[1..] + b;
      AdapterAppend(a[1..], b);
    }
  }

  /**
   * Every deployment is followed at once by the deletion of the record it
   * returned, and nothing else is deleted.
   */
  predicate Paired(a: seq<Event>)
  {
    a == [] ||
    (|a| >= 2 && a[0].Deployed? && a[1].Deleted? && a[1].record == a[0].record && Paired(a[2..]))
  }

  lemma {:induction false} PairedAppend(a: seq<Event>, b: seq<Event>)
    requires Paired(a) && Paired(b)
    ensures Paired(a + b)
    decreases |a|
  {
    if a == [] {
      assert a + b == b;
    } else {
      assert (a + b)[2..] == a[2..] + b;
      PairedAppend(a[2..], b);
    }
  }

  /** `e` fetched the nonce carried by the protected header of `env`. */
  predicate NonceFor(e: Event, env: Envelope, dumps: Json -> string)
  {
    e.NonceFetched? && e.nonce.Some? && env.protected64 == Encoded(ProtectedJson(env.header, e.nonce.value), dumps)
  }

  /** Every request to the CA comes right after the fetch of the nonce its protected header carries. */
  predicate NoncedPosts(t: seq<Event>, dumps: Json -> string)
  {
    forall i :: 0 <= i < |t| && t[i].Posted? ==> 0 < i && NonceFor(t[i - 1], t[i].envelope, dumps)
  }

  predicate StartsQuietly(t: seq<Event>)
  {
    t == [] || !t[0].Posted?
  }

  lemma NoncedAppend(a: seq<Event>, b: seq<Event>, dumps: Json -> string)
    requires NoncedPosts(a, dumps) && NoncedPosts(b, dumps) && StartsQuietly(b)
    ensures NoncedPosts(a + b, dumps)
  {
    var t := a + b;
    forall i | 0 <= i < |t| && t[i].Posted? ensures 0 < i && NonceFor(t[i - 1], t[i].envelope, dumps) {
      if i >= |a| {
        assert t[i] == b[i - |a|];
        assert t[i - 1] == b[i - 1 - |a|];
      } else {
        assert t[i] == a[i];
        assert t[i - 1] == a[i - 1];
      }
    }
  }

  /** The number of requests sent to the CA. */
  function Posts(t: seq<Event>): nat
  {
    if t == [] then 0 else (if t[0].Posted? then 1 else 0) + Posts(t[1..])
  }

  lemma {:induction false} PostsAppend(a: seq<Event>, b: seq<Event>)
    ensures Posts(a + b) == Posts(a) + Posts(b)
    decreases |a|
  {
    if a == [] {
      assert a + b == b;
    } else {
      assert (a + b)[1..] == a[1..] + b;
      PostsAppend(a[1..], b);
    }
  }

  /** The seconds slept. */
  function SleptSeconds(t: seq<Event>): nat
  {
    if t == [] then 0 else (if t[0].Slept? then t[0].seconds else 0) + SleptSeconds(t[1..])
  }
}
