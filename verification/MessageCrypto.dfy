/**
  Message encryption on both ends. AES-GCM (sections 7.1 and 7.2 of NIST SP
  800-38D) and Base64 (section 4 of RFC 4648) are given functions with their
  inverse laws; the checks around them are the program's.
 */
module MessageCrypto {
  import opened Basics

  datatype Crypto = Crypto(
    gcmSeal: (Text, Text, Text) -> (Text, Text),
    gcmOpen: (Text, Text, Text, Text) -> Option<Text>,
    encode: Text -> Text,
    decode: Text -> Text)

  const GCM_NONCE_SIZE := 12
  const GCM_TAG_SIZE := 16

  /** `getCipherByKeyLen` finds a cipher. */
  predicate KeySizeOk(key: Text) {
    |key| == 16 || |key| == 24 || |key| == 32
  }

  ghost predicate Lawful(c: Crypto) {
    && c.encode([]) == [] && (forall x :: c.decode(c.encode(x)) == x)
    && (forall key, nonce, p | KeySizeOk(key) && |nonce| == GCM_NONCE_SIZE ::
          var (ct, tag) := c.gcmSeal(key, nonce, p);
          |ct| == |p| && |tag| == GCM_TAG_SIZE && c.gcmOpen(key, nonce, ct, tag) == Some(p))
    && (forall key, nonce, ct, tag | c.gcmOpen(key, nonce, ct, tag).Some? ::
          |c.gcmOpen(key, nonce, ct, tag).value| == |ct|)
  }

  /** Ciphertext, nonce and tag, all in Base64. */
  datatype Triple = Triple(ciphertext: Text, nonce: Text, tag: Text)

  function ALGORITHM(): Text {
    Bytes("AES-128-GCM")
  }

  /** `MessageClient::encryptText`; the nonce is the 12 random bytes of this call. */
  function EncryptText(c: Crypto, base64Key: Text, plain: Text, nonce: Text): Option<Triple> {
    var key := c.decode(base64Key);
    if key == [] then None
    else if !KeySizeOk(key) then None
    else
      var (ct, tag) := c.gcmSeal(key, nonce, plain);
      Some(Triple(c.encode(ct), c.encode(nonce), c.encode(tag)))
  }

  /** `MessageService::encryptMessage` refuses the empty text. */
  function EncryptMessage(c: Crypto, base64Key: Text, plain: Text, nonce: Text): Option<Triple> {
    if plain == [] then None else EncryptText(c, base64Key, plain, nonce)
  }

  /** `MessageService::decryptMessage`, with the size checks of `AesGcmCrypto::decrypt`. */
  function DecryptMessage(c: Crypto, base64Key: Text, x: Triple, algorithm: Text): Option<Text> {
    if algorithm != ALGORITHM() then None
    else
      var key, ct := c.decode(base64Key), c.decode(x.ciphertext);
      var nonce, tag := c.decode(x.nonce), c.decode(x.tag);
      if key == [] || ct == [] || nonce == [] || tag == [] then None
      else if !KeySizeOk(key) || |nonce| != GCM_NONCE_SIZE || |tag| != GCM_TAG_SIZE then None
      else c.gcmOpen(key, nonce, ct, tag)
  }

  /** What was sealed under a key opens under it, except the empty text, which is refused. */
  lemma SealedOpens(c: Crypto, base64Key: Text, plain: Text, nonce: Text)
    requires Lawful(c) && |nonce| == GCM_NONCE_SIZE
    requires EncryptText(c, base64Key, plain, nonce).Some?
    ensures DecryptMessage(c, base64Key, EncryptText(c, base64Key, plain, nonce).value, ALGORITHM())
            == if plain == [] then None else Some(plain)
  {
    var x := EncryptText(c, base64Key, plain, nonce).value;
    var (ct, tag) := c.gcmSeal(c.decode(base64Key), nonce, plain);
    assert c.decode(x.ciphertext) == ct && c.decode(x.nonce) == nonce && c.decode(x.tag) == tag;
  }

  /** A sealed message has the sizes that the other end insists on. */
  lemma SealedSizes(c: Crypto, base64Key: Text, plain: Text, nonce: Text)
    requires Lawful(c) && |nonce| == GCM_NONCE_SIZE
    ensures var x := EncryptText(c, base64Key, plain, nonce);
            && (x.Some? <==> |c.decode(base64Key)| in {16, 24, 32})
            && (x.Some? ==> c.decode(x.value.nonce) == nonce && |c.decode(x.value.tag)| == 16
                            && |c.decode(x.value.ciphertext)| == |plain|)
  {
    var x := EncryptText(c, base64Key, plain, nonce);
    if x.Some? {
      var (ct, tag) := c.gcmSeal(c.decode(base64Key), nonce, plain);
      assert c.decode(x.value.ciphertext) == ct && c.decode(x.value.tag) == tag;
    }
  }

  /** A message is opened exactly if it names the algorithm, key, nonce and tag have their sizes, there is a ciphertext, and it is authentic. */
  lemma OpenedExactly(c: Crypto, base64Key: Text, x: Triple, algorithm: Text)
    ensures var key, ct, nonce, tag := c.decode(base64Key), c.decode(x.ciphertext), c.decode(x.nonce), c.decode(x.tag);
            var r := DecryptMessage(c, base64Key, x, algorithm);
            && (r.Some? <==> algorithm == Bytes("AES-128-GCM") && |key| in {16, 24, 32} && |nonce| == 12
                             && |tag| == 16 && ct != [] && c.gcmOpen(key, nonce, ct, tag).Some?)
            && (r.Some? ==> r == c.gcmOpen(key, nonce, ct, tag))
  {
  }

  /** The relay's re-encryption never meets the empty text or an unusable key of its own making. */
  lemma DecryptedIsRelayable(c: Crypto, senderKey: Text, x: Triple, algorithm: Text, receiverKey: Text, nonce: Text)
    requires Lawful(c) && DecryptMessage(c, senderKey, x, algorithm).Some?
    ensures EncryptMessage(c, receiverKey, DecryptMessage(c, senderKey, x, algorithm).value, nonce).Some?
            <==> KeySizeOk(c.decode(receiverKey))
  {
    var plain := DecryptMessage(c, senderKey, x, algorithm).value;
    assert |plain| == |c.decode(x.ciphertext)|;
  }
}
