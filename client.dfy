/** The `NostrSDK` client object: its relay list, its key pair and the record
    of processed direct-message ids, with the operations that read and
    update them. Signing, encryption, key derivation, the bech32 codec, the
    relay pool and the clock are parameters. */
module Client {
  import opened Basics
  import opened Events
  import opened ProofOfWork
  import opened Compose
  import opened Publish
  import opened HexKey
  import opened Inbox

  /** `DEFAULT_RELAYS` */
  const DefaultRelays: seq<string> := [
    "wss://relay.damus.io",
    "wss://nos.lol",
    "wss://relay.snort.social",
    "wss://nostr-pub.wellorder.net",
    "wss://nostr.oxtr.dev",
    "wss://relay.nostr.band",
    "wss://nostr.wine",
    "wss://relay.primal.net",
    "wss://nostr.mom",
    "wss://relay.nostr.info",
    "wss://nostr-relay.wlvs.space",
    "wss://relay.current.fyi",
    "wss://brb.io",
    "wss://nostr.fmt.wiz.biz"
  ]

  /** The errors the client throws. */
  datatype ClientError =
    | InvalidPrivateKey          // "Invalid private key format. Must be 64-character hex string."
    | KeyDerivationFailed        // thrown by `getPublicKey` for a key outside the curve order
    | NoKeys                     // "No keys set. ..." / "Keys not set. ..."
    | NoPrivateKey               // "Private key not set. ..."
    | PostFailed(pow: PowError)  // "Failed to post to Nostr: ..." from the proof-of-work search
    | InvalidNpub                // "Invalid npub format: ..."
    | SendFailed                 // "Failed to send message: ..." from encryption

  /** What `generateNewKey` and `getKeyInfo` return. */
  datatype KeyInfo = KeyInfo(privateKey: string, publicKey: string, nsec: string, npub: string)

  /** What `posttoNostr` resolves to. */
  datatype PostResult = PostResult(summary: PublishSummary, eventId: string, powDifficulty: int)

  /** What `sendmessage` resolves to. */
  datatype SendResult = SendResult(summary: PublishSummary, eventId: string)

  /** The subscription filter of `getmessage`: kind-4 events tagged with our key. */
  datatype Filter = Filter(kinds: seq<int>, pTags: seq<string>, since: int)

  /** What `getmessage` subscribes to. */
  datatype Subscription = Subscription(relays: seq<string>, filter: Filter)

  /** What `onMessage` receives for one accepted, decrypted direct message. */
  datatype Message = Message(
    id: string,
    sender: string,
    senderNpub: string,
    content: string,
    timestamp: int,
    event: SignedEvent)

  /** `relays || this.relays`: any given list, even an empty one, is used. */
  function TargetRelays(given: Option<seq<string>>, own: seq<string>): seq<string> {
    if given.Some? then given.value else own
  }

  /** The event `posttoNostr` signs: the composed draft, mined when the
      difficulty is positive. */
  function PreparedNote(message: string, manualTags: seq<Tag>, pubkey: Option<string>, nowMs: int,
                        powDifficulty: int, decode: Decoder, hash: Event -> string): Result<Event, PowError>
  {
    var draft := NoteDraft(message, manualTags, pubkey, nowMs, decode);
    if powDifficulty > 0 then Mine(draft, powDifficulty as nat, hash) else Ok(draft)
  }

  /** The hex public key `sendmessage` encrypts to: an `npub` text decoding
      as an `npub` is replaced by its data, an `npub` text decoding to
      another type is kept, one whose decoding throws is an error, and any
      other text is used as given. */
  function Recipient(recipientPubkey: string, decode: Decoder): Option<string> {
    if StartsWith(recipientPubkey, "npub") then
      match decode(recipientPubkey)
      case None => None
      case Some(d) => if d.kind == "npub" then Some(d.data) else Some(recipientPubkey)
    else Some(recipientPubkey)
  }

  /** The kind-4 draft of `sendmessage`. */
  function DirectMessageDraft(target: string, encrypted: string, nowMs: int): Event {
    Event(4, UnixSeconds(nowMs), [["p", target]], encrypted, None)
  }

  /** A published note carries the composed tags: with no proof of work
      exactly those, with proof of work those without their `nonce` tags,
      then one `nonce` tag naming a counter below the ceiling and the difficulty. */
  lemma PreparedNoteShape(message: string, manualTags: seq<Tag>, pubkey: Option<string>, nowMs: int,
                          powDifficulty: int, decode: Decoder, hash: Event -> string)
    returns (nonce: nat)
    requires PreparedNote(message, manualTags, pubkey, nowMs, powDifficulty, decode, hash).Ok?
    ensures var e := PreparedNote(message, manualTags, pubkey, nowMs, powDifficulty, decode, hash).value;
      && e.kind == 1 && e.content == message && e.pubkey == pubkey && e.createdAt == nowMs / 1000
      && (powDifficulty <= 0 ==> e.tags == NoteTags(message, manualTags, decode))
      && (powDifficulty > 0 ==>
            && |e.tags| > 0
            && e.tags[..|e.tags| - 1] == WithoutNonce(NoteTags(message, manualTags, decode))
            && nonce < MaxAttempts
            && e.tags[|e.tags| - 1] == NonceTag(nonce, powDifficulty as nat)
            && MeetsDifficulty(hash(e), powDifficulty as nat))
  {
    var draft := NoteDraft(message, manualTags, pubkey, nowMs, decode);
    nonce := 0;
    if powDifficulty > 0 {
      var d := powDifficulty as nat;
      MineLeastWitness(draft, d, hash);
      nonce :| 0 <= nonce < MaxAttempts && Mine(draft, d, hash).value == Stamp(draft, nonce, d);
      StampShape(draft, nonce, d);
    }
  }

  /** A text not starting with `npub` is used as given; an `npub` text is an
      error exactly when its decoding throws; an `npub` text decoding with
      type `npub` is replaced by its data; and the text is only ever
      replaced by such data. */
  lemma RecipientCases(recipientPubkey: string, decode: Decoder)
    ensures !StartsWith(recipientPubkey, "npub") ==> Recipient(recipientPubkey, decode) == Some(recipientPubkey)
    ensures StartsWith(recipientPubkey, "npub") ==>
              (Recipient(recipientPubkey, decode).None? <==> decode(recipientPubkey).None?)
    ensures StartsWith(recipientPubkey, "npub") && decode(recipientPubkey).Some?
            && decode(recipientPubkey).value.kind == "npub"
            ==> Recipient(recipientPubkey, decode) == Some(decode(recipientPubkey).value.data)
    ensures Recipient(recipientPubkey, decode).Some? && Recipient(recipientPubkey, decode).value != recipientPubkey
            ==> StartsWith(recipientPubkey, "npub")
                && decode(recipientPubkey) == Some(Decoded("npub", Recipient(recipientPubkey, decode).value))
  {
  }

  class NostrClient {
    var relays: seq<string>
    var privateKey: Option<seq<byte>>
    var publicKey: Option<string>
    var processedmsgs: seq<string>
    const maxStoredEvents: nat

    /** The invariants every operation keeps: the id record within capacity
        and without duplicates, and a key of 32 bytes. A public key need not
        accompany the private key: `setPrivateKey` stores the bytes before
        deriving the public key, which can throw. */
    ghost predicate Valid()
      reads this
    {
      && maxStoredEvents == MaxStoredEvents
      && WellFormed(processedmsgs)
      && (privateKey.Some? ==> |privateKey.value| == KeyBytes)
    }

    /** `!this.privateKey || !this.publicKey` is false: a key is set and the
        public key is not the empty (falsy) string. */
    predicate KeysSet()
      reads this
    {
      privateKey.Some? && publicKey.Some? && publicKey.value != ""
    }

    /** `new NostrSDK({ relays })`; key options are applied by calling
        `SetPrivateKey` afterwards. */
    constructor(relays: Option<seq<string>>)
      ensures Valid()
      ensures this.relays == TargetRelays(relays, DefaultRelays)
      ensures privateKey == None && publicKey == None && processedmsgs == []
    {
      this.relays := if relays.Some? then relays.value else DefaultRelays;
      privateKey := None;
      publicKey := None;
      processedmsgs := [];
      maxStoredEvents := MaxStoredEvents;
    }

    /** `setPrivateKey(hexKey)`: validate, decode into 32 bytes, store them,
        then derive the public key. A rejected text leaves the client
        unchanged; when the derivation throws (`None`) the bytes are already
        stored and the old public key stays. */
    method SetPrivateKey(hexKey: string, getPublicKey: seq<byte> -> Option<string>) returns (r: Outcome<ClientError>)
      requires Valid()
      modifies this
      ensures Valid()
      ensures relays == old(relays) && processedmsgs == old(processedmsgs)
      ensures !IsHexKey(hexKey) ==> r == Fail(InvalidPrivateKey)
                                    && privateKey == old(privateKey) && publicKey == old(publicKey)
      ensures IsHexKey(hexKey) ==> privateKey == Some(HexKeyBytes(hexKey))
      ensures IsHexKey(hexKey) && getPublicKey(HexKeyBytes(hexKey)).Some? ==>
                r == Pass && publicKey == getPublicKey(HexKeyBytes(hexKey))
      ensures IsHexKey(hexKey) && getPublicKey(HexKeyBytes(hexKey)).None? ==>
                r == Fail(KeyDerivationFailed) && publicKey == old(publicKey)
    {
      var bytes := DecodeHexKey(hexKey);
      if bytes.None? {
        return Fail(InvalidPrivateKey);
      }
      privateKey := bytes;
      var derived := getPublicKey(bytes.value);
      if derived.None? {
        return Fail(KeyDerivationFailed);
      }
      publicKey := derived;
      return Pass;
    }

    /** `generateNewKey()`: install a fresh secret (`generateSecretKey` always
        yields 32 bytes) and report it; the reported hex text is one
        `SetPrivateKey` accepts and decodes to the same key. */
    method GenerateNewKey(secret: seq<byte>, getPublicKey: seq<byte> -> string,
                          nsecEncode: seq<byte> -> string, npubEncode: string -> string)
      returns (info: KeyInfo)
      requires Valid() && |secret| == KeyBytes
      modifies this
      ensures Valid()
      ensures relays == old(relays) && processedmsgs == old(processedmsgs)
      ensures privateKey == Some(secret) && publicKey == Some(getPublicKey(secret))
      ensures info == KeyInfo(EncodeHex(secret), getPublicKey(secret), nsecEncode(secret),
                              npubEncode(getPublicKey(secret)))
      ensures IsHexKey(info.privateKey) && HexKeyBytes(info.privateKey) == secret
    {
      privateKey := Some(secret);
      publicKey := Some(getPublicKey(secret));
      DecodeEncodedKey(secret);
      info := KeyInfo(EncodeHex(secret), publicKey.value, nsecEncode(secret), npubEncode(publicKey.value));
    }

    /** `getKeyInfo()`: the current keys, or an error when none are set. The
        private key is reported as its zero-padded lowercase hex encoding,
        which decodes back to it. */
    function GetKeyInfo(nsecEncode: seq<byte> -> string, npubEncode: string -> string): (r: Result<KeyInfo, ClientError>)
      requires Valid()
      reads this
      ensures r.Err? <==> !KeysSet()
      ensures r.Err? ==> r.error == NoKeys
      ensures r.Ok? ==> && r.value.privateKey == EncodeHex(privateKey.value)
                        && IsHexKey(r.value.privateKey)
                        && (forall j :: 0 <= j < |r.value.privateKey| ==> IsLowerHexDigit(r.value.privateKey[j]))
                        && privateKey == Some(HexKeyBytes(r.value.privateKey))
                        && publicKey == Some(r.value.publicKey)
                        && r.value.nsec == nsecEncode(privateKey.value)
                        && r.value.npub == npubEncode(r.value.publicKey)
    {
      if !KeysSet() then Err(NoKeys)
      else
        DecodeEncodedKey(privateKey.value);
        EncodeHexDigits(privateKey.value);
        Ok(KeyInfo(EncodeHex(privateKey.value), publicKey.value,
                   nsecEncode(privateKey.value), npubEncode(publicKey.value)))
    }

    /** `getmessage`'s set-up: the key check, then the subscription to kind-4
        events tagged with our public key, since `since` or by default the
        last 100 seconds. */
    function GetMessage(since: Option<int>, relays: Option<seq<string>>, nowMs: int): (r: Result<Subscription, ClientError>)
      reads this
      ensures r.Err? <==> !KeysSet()
      ensures r.Ok? ==> && r.value.filter.kinds == [4]
                        && r.value.filter.pTags == [publicKey.value]
                        && r.value.relays == TargetRelays(relays, this.relays)
                        && (since.Some? ==> r.value.filter.since == since.value)
                        && (since.None? ==> r.value.filter.since == nowMs / 1000 - 100)
    {
      if !KeysSet() then Err(NoKeys)
      else
        var s := if since.Some? then since.value else UnixSeconds(nowMs) - 100;
        Ok(Subscription(TargetRelays(relays, this.relays), Filter([4], [publicKey.value], s)))
    }

    /** `onevent` for one delivered event at clock reading `nowMs`: drop it when
        stale or already processed, otherwise record its id (evicting the
        oldest beyond capacity) and then decrypt it and encode the sender as an
        `npub`; what `onMessage` would receive is returned. A failing
        decryption or encoding (`None`) drops the message after its id was
        recorded. */
    method OnEvent(ev: SignedEvent, nowMs: int,
                   decrypt: (seq<byte>, string, string) -> Option<string>,
                   npubEncode: string -> Option<string>)
      returns (msg: Option<Message>)
      requires Valid() && privateKey.Some?
      modifies this
      ensures Valid()
      ensures relays == old(relays) && privateKey == old(privateKey) && publicKey == old(publicKey)
      ensures processedmsgs == CacheAfter(old(processedmsgs), ev.id, ev.createdAt, nowMs)
      ensures msg.Some? <==> Screen(old(processedmsgs), ev.id, ev.createdAt, nowMs) == Accepted
                             && decrypt(privateKey.value, ev.pubkey, ev.content).Some?
                             && npubEncode(ev.pubkey).Some?
      ensures msg.Some? ==>
                msg.value == Message(ev.id, ev.pubkey, npubEncode(ev.pubkey).value,
                                     Trim(decrypt(privateKey.value, ev.pubkey, ev.content).value),
                                     ev.createdAt, ev)
    {
      var ageMs := nowMs - ev.createdAt * 1000;
      if ageMs > MaxAgeMs {
        return None;
      }
      if ev.id in processedmsgs {
        return None;
      }
      CacheAfterWellFormed(processedmsgs, ev.id, ev.createdAt, nowMs);
      processedmsgs := processedmsgs + [ev.id];
      if |processedmsgs| > maxStoredEvents {
        processedmsgs := processedmsgs[1..];
      }
      var decrypted := decrypt(privateKey.value, ev.pubkey, ev.content);
      if decrypted.None? {
        return None;
      }
      var senderNpub := npubEncode(ev.pubkey);
      if senderNpub.None? {
        return None;
      }
      return Some(Message(ev.id, ev.pubkey, senderNpub.value, Trim(decrypted.value), ev.createdAt, ev));
    }

    /** `posttoNostr`: check the key, compose the note, mine it when the
        difficulty is positive, sign it, publish it and count the outcomes. */
    method PostToNostr(message: string, manualTags: seq<Tag>, relays: Option<seq<string>>,
                       powDifficulty: int, nowMs: int, decode: Decoder,
                       getEventHash: Event -> string,
                       finalize: (Event, seq<byte>) -> SignedEvent,
                       publish: (seq<string>, SignedEvent) -> seq<Settled>)
      returns (r: Result<PostResult, ClientError>)
      ensures privateKey.None? ==> r == Err(NoPrivateKey)
      ensures privateKey.Some? ==>
                var target := TargetRelays(relays, this.relays);
                match PreparedNote(message, manualTags, publicKey, nowMs, powDifficulty, decode, getEventHash)
                case Err(e) => r == Err(PostFailed(e))
                case Ok(e) =>
                  var signed := finalize(e, privateKey.value);
                  r == Ok(PostResult(Summary(target, publish(target, signed)), signed.id, powDifficulty))
    {
      if privateKey.None? {
        return Err(NoPrivateKey);
      }
      var targetRelays := TargetRelays(relays, this.relays);
      var unsignedEvent := ComposeNote(message, manualTags, publicKey, nowMs, decode);
      if powDifficulty > 0 {
        var mined := CalculatePow(unsignedEvent, powDifficulty as nat, getEventHash);
        if mined.Err? {
          return Err(PostFailed(mined.error));
        }
        unsignedEvent := mined.value;
      }
      var signedEvent := finalize(unsignedEvent, privateKey.value);
      var results := publish(targetRelays, signedEvent);
      var summary := Aggregate(targetRelays, results);
      return Ok(PostResult(summary, signedEvent.id, powDifficulty));
    }

    /** `sendmessage`: check the key, resolve the recipient, encrypt, sign the
        kind-4 event tagged with the recipient, publish it and count the outcomes. */
    method SendMessage(recipientPubkey: string, message: string, relays: Option<seq<string>>,
                       nowMs: int, decode: Decoder,
                       encrypt: (seq<byte>, string, string) -> Option<string>,
                       finalize: (Event, seq<byte>) -> SignedEvent,
                       publish: (seq<string>, SignedEvent) -> seq<Settled>)
      returns (r: Result<SendResult, ClientError>)
      ensures privateKey.None? ==> r == Err(NoPrivateKey)
      ensures privateKey.Some? ==>
                var target := TargetRelays(relays, this.relays);
                match Recipient(recipientPubkey, decode)
                case None => r == Err(InvalidNpub)
                case Some(to) =>
                  match encrypt(privateKey.value, to, message)
                  case None => r == Err(SendFailed)
                  case Some(encrypted) =>
                    var signed := finalize(DirectMessageDraft(to, encrypted, nowMs), privateKey.value);
                    r == Ok(SendResult(Summary(target, publish(target, signed)), signed.id))
    {
      if privateKey.None? {
        return Err(NoPrivateKey);
      }
      var targetPubkey := recipientPubkey;
      if StartsWith(recipientPubkey, "npub") {
        var decoded := decode(recipientPubkey);
        if decoded.None? {
          return Err(InvalidNpub);
        }
        if decoded.value.kind == "npub" {
          targetPubkey := decoded.value.data;
        }
      }
      var targetRelays := TargetRelays(relays, this.relays);
      var encrypted := encrypt(privateKey.value, targetPubkey, message);
      if encrypted.None? {
        return Err(SendFailed);
      }
      var unsignedEvent := Event(4, UnixSeconds(nowMs), [["p", targetPubkey]], encrypted.value, None);
      var signedEvent := finalize(unsignedEvent, privateKey.value);
      var results := publish(targetRelays, signedEvent);
      var summary := Aggregate(targetRelays, results);
      return Ok(SendResult(summary, signedEvent.id));
    }

    /** `destroy()`: forget the processed ids; keys and relays stay. */
    method Destroy()
      requires Valid()
      modifies this
      ensures Valid()
      ensures processedmsgs == []
      ensures relays == old(relays) && privateKey == old(privateKey) && publicKey == old(publicKey)
    {
      processedmsgs := [];
    }
  }
}
