/** The messages exchanged between hub and validator node, the two texts that
    get signed, and the hub's signature check over an abstract signature
    scheme. */
module Protocol {
  import opened Wrappers
  import opened SignatureWire

  /** The outcome a validator reports for one probe. */
  datatype Status = Good | Bad

  /** validator -> hub, type `signup`. */
  datatype SignupRequest = SignupRequest(ip: string, publicKey: string, signedMessage: string, callbackId: string)

  /** validator -> hub, type `validate`. `validatorId` is None when the field
      is absent or null. */
  datatype ValidateReply = ValidateReply(
    callbackId: string,
    status: Status,
    latency: int,
    websiteId: string,
    validatorId: Option<string>,
    signedMessage: string)

  /** The `data` of a hub -> validator `validate` message. */
  datatype ProbeRequest = ProbeRequest(url: string, callbackId: string, websiteId: string)

  /** Messages a validator node sends to the hub. */
  datatype ToHub = SignupMsg(signup: SignupRequest) | ValidateMsg(reply: ValidateReply)

  /** Messages the hub sends to a validator node. The hub's signup answer
      carries `callbackId`; it has no `callback` field. */
  datatype ToValidator = SignupAck(validatorId: string, callbackId: string) | Validate(request: ProbeRequest)

  /** A JavaScript string value is truthy exactly when it is present and not
      empty; `!validatorId` rejects the other cases. */
  predicate Present(s: Option<string>) {
    s.Some? && s.value != ""
  }

  const SIGNUP_PREFIX: string := "Signed message for "
  const REPLY_PREFIX: string := "Replying to "

  /** The text a validator signs to sign up: `Signed message for {callbackId}, {publicKey}`.
      The callback id follows the fixed prefix and the public key ends the
      text; `SignupTextInjective` reads both back when the key has no comma. */
  function SignupText(callbackId: string, publicKey: string): (r: string)
    ensures |r| == |SIGNUP_PREFIX| + |callbackId| + 2 + |publicKey|
    ensures r[..|SIGNUP_PREFIX|] == SIGNUP_PREFIX
    ensures r[|SIGNUP_PREFIX|..|SIGNUP_PREFIX| + |callbackId|] == callbackId
    ensures r[|r| - |publicKey|..] == publicKey
  {
    var r := SIGNUP_PREFIX + callbackId + ", " + publicKey;
    assert r == SIGNUP_PREFIX + (callbackId + (", " + publicKey));
    r
  }

  /** The text a validator signs to answer a probe: `Replying to {callbackId}`.
      The callback id is everything after the prefix. */
  function ReplyText(callbackId: string): (r: string)
    ensures |r| == |REPLY_PREFIX| + |callbackId|
    ensures r[..|REPLY_PREFIX|] == REPLY_PREFIX
    ensures r[|REPLY_PREFIX|..] == callbackId
  {
    REPLY_PREFIX + callbackId
  }

  /** The signature scheme, kept abstract: how the text of a public key decodes
      to key bytes (None where the key constructor throws), and the detached
      check of a signature over a message under key bytes. */
  datatype Scheme = Scheme(
    decodeKey: string -> Option<seq<byte>>,
    check: (string, seq<byte>, seq<byte>) -> bool)

  /** The hub's verifyMessage: any text that does not decode (signature or
      key) makes it answer false rather than fail; otherwise the scheme's
      check decides. */
  function VerifyMessage(scheme: Scheme, message: string, publicKey: string, signature: string): (ok: bool)
    ensures DecodeSignature(signature).None? ==> !ok
    ensures scheme.decodeKey(publicKey).None? ==> !ok
  {
    match DecodeSignature(signature)
    case None => false
    case Some(sig) =>
      match scheme.decodeKey(publicKey)
      case None => false
      case Some(key) => scheme.check(message, sig, key)
  }

  /** A validator's key pair: the public key's text and the detached signing
      function of its secret key. */
  datatype KeyPair = KeyPair(publicKey: string, sign: string -> seq<byte>)

  /** The validator's signMessage: the signature bytes in their wire form,
      which the hub reads back as exactly the bytes signed. */
  function SignMessage(keys: KeyPair, message: string): (s: string)
    ensures DecodeSignature(s) == Some(keys.sign(message))
  {
    SignatureRoundTrip(keys.sign(message));
    EncodeSignature(keys.sign(message))
  }

  /** The key pair is a genuine one for the scheme: its public key decodes,
      and every signature it makes passes the check under that key. */
  ghost predicate Matches(scheme: Scheme, keys: KeyPair) {
    match scheme.decodeKey(keys.publicKey)
    case None => false
    case Some(key) => forall m :: scheme.check(m, keys.sign(m), key)
  }

  /** What a genuine key pair signs, the hub accepts. */
  lemma SignedMessageVerifies(scheme: Scheme, keys: KeyPair, message: string)
    requires Matches(scheme, keys)
    ensures VerifyMessage(scheme, message, keys.publicKey, SignMessage(keys, message))
  {
    var key := scheme.decodeKey(keys.publicKey).value;
    assert scheme.check(message, keys.sign(message), key);
  }

  /** Where the separator of a signup text sits: a comma and a space right
      after the callback id, then the public key to the end. */
  lemma SignupTextLayout(callbackId: string, publicKey: string)
    ensures var t := SignupText(callbackId, publicKey);
            var at := |SIGNUP_PREFIX| + |callbackId|;
            && t[at] == ',' && t[at + 1] == ' '
            && (forall j :: 0 <= j < |publicKey| ==> t[at + 2 + j] == publicKey[j])
  {
    var t := SignupText(callbackId, publicKey);
    assert t == SIGNUP_PREFIX + callbackId + ", " + publicKey;
  }

  /** A signup signature is bound to one (callback id, public key) pair when
      the key holds no comma, as a base58 key never does: the last comma of
      the text separates the two. */
  lemma SignupTextInjective(a: string, k: string, b: string, m: string)
    requires SignupText(a, k) == SignupText(b, m)
    requires forall i :: 0 <= i < |k| ==> k[i] != ','
    requires forall i :: 0 <= i < |m| ==> m[i] != ','
    ensures a == b && k == m
  {
    var t := SignupText(a, k);
    var p := |SIGNUP_PREFIX|;
    SignupTextLayout(a, k);
    SignupTextLayout(b, m);
    if |a| != |b| {
      assert false;
    }
    assert a == t[p..p + |a|] == b;
    assert k == t[|t| - |k|..] == m;
  }

  /** A reply signature is bound to one callback id: two reply texts are equal
      only for the same id. */
  lemma ReplyTextInjective(a: string, b: string)
    requires ReplyText(a) == ReplyText(b)
    ensures a == b
  {
    assert a == ReplyText(a)[|REPLY_PREFIX|..];
    assert b == ReplyText(b)[|REPLY_PREFIX|..];
  }

  /** The signup text and the reply text never coincide: they differ in their
      first character. */
  lemma TemplatesDiffer(callbackId: string, publicKey: string, replyId: string)
    ensures SignupText(callbackId, publicKey) != ReplyText(replyId)
  {
    assert SignupText(callbackId, publicKey)[0] == SIGNUP_PREFIX[0];
    assert ReplyText(replyId)[0] == REPLY_PREFIX[0];
  }
}
