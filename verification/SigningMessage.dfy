/** The message that authorises a deprecation, and its signature. */
module SigningMessage {
  import opened Wrappers
  import opened Text

  datatype Payload = Payload(contractId: string, action: string, timestamp: string, nonce: string)

  function BuildSigningMessage(p: Payload): string {
    p.action + ":" + p.contractId + ":" + p.timestamp + ":" + p.nonce
  }

  /** Splits at the last ':'. */
  function SplitLast(s: string): Option<(string, string)> {
    if s == "" then None
    else
      var n := |s| - 1;
      if s[n] == ':' then Some((s[..n], ""))
      else match SplitLast(s[..n])
        case None => None
        case Some((before, after)) => Some((before, after + [s[n]]))
  }

  /** Reads a message by its first two and its last colon. */
  function Decode(message: string): Option<Payload> {
    match SplitFirst(message, ':')
    case None => None
    case Some((action, rest)) =>
      match SplitFirst(rest, ':')
      case None => None
      case Some((contractId, tail)) =>
        match SplitLast(tail)
        case None => None
        case Some((timestamp, nonce)) => Some(Payload(contractId, action, timestamp, nonce))
  }

  predicate NoColon(s: string) {
    ':' !in s
  }

  /** The timestamp may contain colons; the other parts may not. */
  predicate Separable(p: Payload) {
    NoColon(p.action) && NoColon(p.contractId) && NoColon(p.nonce)
  }

  lemma {:induction false} LastColon(a: string, b: string)
    requires NoColon(b)
    ensures SplitLast(a + ":" + b) == Some((a, b))
  {
    var s := a + ":" + b;
    if b == "" {
      assert s[..|s| - 1] == a;
    } else {
      var n := |b| - 1;
      assert b == b[..n] + [b[n]] && b[n] in b;
      assert s[..|s| - 1] == a + ":" + b[..n] && s[|s| - 1] == b[n];
      LastColon(a, b[..n]);
    }
  }

  lemma {:induction false} SplitLastParts(s: string)
    ensures SplitLast(s).Some? ==> NoColon(SplitLast(s).value.1)
  {
    if s != "" { SplitLastParts(s[..|s| - 1]); }
  }

  /** The message gives back the payload exactly when only the timestamp may
      contain colons. */
  lemma {:induction false} DecodeBuilt(p: Payload)
    ensures Decode(BuildSigningMessage(p)) == Some(p) <==> Separable(p)
  {
    var tail := p.timestamp + ":" + p.nonce;
    var rest := p.contractId + ":" + tail;
    var message := BuildSigningMessage(p);
    assert message == p.action + ":" + rest;
    if Separable(p) {
      SplitFirstBack(p.action, rest, ':');
      SplitFirstBack(p.contractId, tail, ':');
      LastColon(p.timestamp, p.nonce);
    } else if Decode(message).Some? {
      var after := SplitFirst(message, ':').value.1;
      SplitFirstParts(message, ':');
      SplitFirstParts(after, ':');
      SplitLastParts(SplitFirst(after, ':').value.1);
    }
  }

  /** Separable payloads have different messages from each other. */
  lemma {:induction false} MessagesDiffer(p: Payload, q: Payload)
    requires Separable(p) && Separable(q) && p != q
    ensures BuildSigningMessage(p) != BuildSigningMessage(q)
  {
    DecodeBuilt(p);
    DecodeBuilt(q);
  }

  /** Where the parts of a message stand. */
  lemma {:induction false} MessageLayout(p: Payload)
    ensures var m, a := BuildSigningMessage(p), |p.action|;
      var c := a + 1 + |p.contractId|;
      var t := c + 1 + |p.timestamp|;
      && |m| == t + 1 + |p.nonce|
      && m[..a] == p.action && m[a] == ':' && m[a + 1..c] == p.contractId && m[c] == ':'
      && m[c + 1..t] == p.timestamp && m[t] == ':' && m[t + 1..] == p.nonce
  {
  }

  // ---- which messages belong to one payload only ---------------------------------

  predicate NoColons(p: Payload) {
    Separable(p) && NoColon(p.timestamp)
  }

  function Colons(s: string): nat {
    if s == "" then 0 else (if s[0] == ':' then 1 else 0) + Colons(s[1..])
  }

  lemma {:induction false} ColonsAppend(a: string, b: string)
    ensures Colons(a + b) == Colons(a) + Colons(b)
  {
    if a == "" {
      assert a + b == b;
    } else {
      assert (a + b)[1..] == a[1..] + b;
      ColonsAppend(a[1..], b);
    }
  }

  lemma {:induction false} NoneCounted(s: string)
    ensures Colons(s) == 0 <==> NoColon(s)
  {
    if s != "" {
      assert s == [s[0]] + s[1..];
      NoneCounted(s[1..]);
    }
  }

  lemma {:induction false} MessageColons(p: Payload)
    ensures Colons(BuildSigningMessage(p))
         == 3 + Colons(p.action) + Colons(p.contractId) + Colons(p.timestamp) + Colons(p.nonce)
  {
    assert Colons(":") == 1 by { assert ":"[1..] == ""; }
    ColonsAppend(p.action, ":");
    ColonsAppend(p.action + ":", p.contractId);
    ColonsAppend(p.action + ":" + p.contractId, ":");
    ColonsAppend(p.action + ":" + p.contractId + ":", p.timestamp);
    ColonsAppend(p.action + ":" + p.contractId + ":" + p.timestamp, ":");
    ColonsAppend(p.action + ":" + p.contractId + ":" + p.timestamp + ":", p.nonce);
  }

  /** A payload without colons shares its message with no other payload at all. */
  lemma {:induction false} OnlyItself(p: Payload, q: Payload)
    requires NoColons(p) && BuildSigningMessage(p) == BuildSigningMessage(q)
    ensures p == q
  {
    MessageColons(p);
    MessageColons(q);
    NoneCounted(p.action);
    NoneCounted(p.contractId);
    NoneCounted(p.timestamp);
    NoneCounted(p.nonce);
    NoneCounted(q.action);
    NoneCounted(q.contractId);
    NoneCounted(q.nonce);
    DecodeBuilt(p);
    DecodeBuilt(q);
  }

  /** Splits a text at one of its colons. */
  lemma {:induction false} AtColon(s: string) returns (before: string, after: string)
    requires !NoColon(s)
    ensures s == before + ":" + after
  {
    var i :| 0 <= i < |s| && s[i] == ':';
    before, after := s[..i], s[i + 1..];
  }

  /** A colon inside a field can be read as the one beside it, which moves the
      border between two fields: another payload with the same message. */
  lemma {:induction false} Respelled(p: Payload) returns (q: Payload)
    requires !NoColons(p)
    ensures q != p && BuildSigningMessage(q) == BuildSigningMessage(p)
    ensures !NoColon(p.timestamp) ==> q.action == p.action && q.nonce == p.nonce && |q.contractId| > |p.contractId|
  {
    if !NoColon(p.timestamp) {
      var a, b := AtColon(p.timestamp);
      q := p.(contractId := p.contractId + ":" + a, timestamp := b);
      assert p.action + ":" + p.contractId + ":" + (a + ":" + b) == p.action + ":" + (p.contractId + ":" + a) + ":" + b;
    } else if !NoColon(p.action) {
      var a, b := AtColon(p.action);
      q := p.(action := a, contractId := b + ":" + p.contractId);
      assert (a + ":" + b) + ":" + p.contractId == a + ":" + (b + ":" + p.contractId);
    } else if !NoColon(p.contractId) {
      var a, b := AtColon(p.contractId);
      q := p.(action := p.action + ":" + a, contractId := b);
      assert p.action + ":" + (a + ":" + b) == (p.action + ":" + a) + ":" + b;
    } else {
      var a, b := AtColon(p.nonce);
      q := p.(timestamp := p.timestamp + ":" + a, nonce := b);
      assert p.action + ":" + p.contractId + ":" + p.timestamp + ":" + (a + ":" + b)
          == p.action + ":" + p.contractId + ":" + (p.timestamp + ":" + a) + ":" + b;
    }
  }

  /** A payload has its message to itself if and only if none of its fields
      contains a colon. */
  lemma {:induction false} UniqueMessage(p: Payload)
    ensures (forall q :: q != p ==> BuildSigningMessage(q) != BuildSigningMessage(p)) <==> NoColons(p)
  {
    if NoColons(p) {
      forall q | q != p ensures BuildSigningMessage(q) != BuildSigningMessage(p) {
        if BuildSigningMessage(q) == BuildSigningMessage(p) { OnlyItself(p, q); }
      }
    } else {
      var q := Respelled(p);
    }
  }

  /** For one, a colon in a contract id can move a part of it into the timestamp. */
  lemma {:induction false} ColonAmbiguous(action: string, a: string, b: string, timestamp: string, nonce: string)
    ensures var p, q := Payload(a + ":" + b, action, timestamp, nonce), Payload(a, action, b + ":" + timestamp, nonce);
      p != q && BuildSigningMessage(p) == BuildSigningMessage(q)
  {
    assert action + ":" + (a + ":" + b) + ":" + timestamp + ":" + nonce
        == action + ":" + a + ":" + (b + ":" + timestamp) + ":" + nonce;
  }

  // ---- signatures ----------------------------------------------------------------

  type Bytes = seq<bv8>

  const SIGNATURE_LENGTH: nat := 64

  datatype Error = BadEncoding | BadLength

  /** The signature scheme of one key pair and the text encoding of signatures,
      both supplied by libraries. */
  datatype Scheme = Scheme(
    sign: string -> Bytes, verify: (string, Bytes) -> bool,
    encode: Bytes -> string, decode: string -> Option<Bytes>)

  function SignDeprecation(scheme: Scheme, p: Payload): string {
    scheme.encode(scheme.sign(BuildSigningMessage(p)))
  }

  function VerifyDeprecation(scheme: Scheme, p: Payload, signature: string): Result<bool, Error> {
    match scheme.decode(signature)
    case None => Err(BadEncoding)
    case Some(bytes) =>
      if |bytes| != SIGNATURE_LENGTH then Err(BadLength)
      else Ok(scheme.verify(BuildSigningMessage(p), bytes))
  }

  /** What is assumed of the libraries for the signature of message `m`: it has
      the right length and decodes to itself, verifies `m`, and does not happen
      to verify the other message `n`. */
  ghost predicate SoundFor(scheme: Scheme, m: string, n: string) {
    var signature := scheme.sign(m);
    && |signature| == SIGNATURE_LENGTH
    && scheme.decode(scheme.encode(signature)) == Some(signature)
    && scheme.verify(m, signature)
    && (n != m ==> !scheme.verify(n, signature))
  }

  /** ... and so for every message other than `m`. */
  ghost predicate SoundScheme(scheme: Scheme, m: string) {
    forall n :: SoundFor(scheme, m, n)
  }

  /** What is refused before anything is verified: text that is no encoding, and
      anything that is not 64 bytes long. */
  lemma {:induction false} SignatureErrors(scheme: Scheme, p: Payload, signature: string)
    ensures var r := VerifyDeprecation(scheme, p, signature);
      && (r == Err(BadEncoding) <==> scheme.decode(signature).None?)
      && (r == Err(BadLength) <==> scheme.decode(signature).Some? && |scheme.decode(signature).value| != 64)
      && (r.Ok? ==> r.value == scheme.verify(BuildSigningMessage(p), scheme.decode(signature).value))
  {
  }

  /** A signature is accepted for exactly the payloads with the signed message. */
  lemma {:induction false} SignatureAccepts(scheme: Scheme, p: Payload, q: Payload)
    requires SoundFor(scheme, BuildSigningMessage(p), BuildSigningMessage(q))
    ensures VerifyDeprecation(scheme, q, SignDeprecation(scheme, p))
         == Ok(BuildSigningMessage(q) == BuildSigningMessage(p))
    ensures Separable(p) && Separable(q) ==> VerifyDeprecation(scheme, q, SignDeprecation(scheme, p)) == Ok(p == q)
  {
    if Separable(p) && Separable(q) && p != q { MessagesDiffer(p, q); }
  }

  /** So it authorises its own payload and no other one if and only if no field
      of the payload contains a colon. */
  lemma {:induction false} SignatureBindsPayload(scheme: Scheme, p: Payload)
    requires SoundScheme(scheme, BuildSigningMessage(p))
    ensures VerifyDeprecation(scheme, p, SignDeprecation(scheme, p)) == Ok(true)
    ensures (forall q :: q != p ==> VerifyDeprecation(scheme, q, SignDeprecation(scheme, p)) != Ok(true)) <==> NoColons(p)
  {
    forall q ensures VerifyDeprecation(scheme, q, SignDeprecation(scheme, p))
                  == Ok(BuildSigningMessage(q) == BuildSigningMessage(p)) {
      assert SoundFor(scheme, BuildSigningMessage(p), BuildSigningMessage(q));
      SignatureAccepts(scheme, p, q);
    }
    UniqueMessage(p);
    if !NoColons(p) {
      var q := Respelled(p);
      assert VerifyDeprecation(scheme, q, SignDeprecation(scheme, p)) == Ok(true);
    }
  }

  /** Every RFC 3339 timestamp contains colons, so each signature the command
      makes is also accepted for a payload with a longer contract id. */
  lemma {:induction false} TimestampRespelled(scheme: Scheme, p: Payload) returns (q: Payload)
    requires SoundScheme(scheme, BuildSigningMessage(p)) && !NoColon(p.timestamp)
    ensures q.action == p.action && q.nonce == p.nonce && |q.contractId| > |p.contractId|
    ensures VerifyDeprecation(scheme, q, SignDeprecation(scheme, p)) == Ok(true)
  {
    q := Respelled(p);
    assert SoundFor(scheme, BuildSigningMessage(p), BuildSigningMessage(q));
    SignatureAccepts(scheme, p, q);
  }
}
