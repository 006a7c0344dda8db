# nostr-sdk client core, modelled in Dafny

This project models the logic of the `NostrSDK` client in `index.js` of
besoeasy/nostr-sdk. The client is a thin layer over `nostr-tools` for posting
text notes and exchanging encrypted direct messages on Nostr relays (NIP-01
events, NIP-04 direct messages, NIP-13 proof of work, NIP-19 `npub`/`note`
references). The model covers six parts:

- **Tag extraction** (`extractContentTags`). The four global regular
  expressions for hashtags, links, `@npub` mentions and `note` references
  are written as left-to-right scanners. Each scanner resumes at the end of
  its last match, as `String.prototype.match` with the `g` flag does.
  Hashtags and mentions are also proved equal to independent per-position
  descriptions.
- **Proof of work** (`calculatePow`). The nonce search is a method with the
  source's loop. It is proved equal to a specification function `Mine`, and
  `Mine` is proved to give the least winning counter below 10,000,000, with
  the nonce tag in the shape the source writes it. Difficulty counts leading
  hexadecimal `'0'` characters of the event hash, as the code does, not
  leading zero bits.
- **Tag assembly** in `posttoNostr`: the manual tags, then `t`, `p` and `e`
  tags. Items whose decoding fails or has the wrong type are skipped.
- **Publish aggregation.** The `results.forEach` fold of `posttoNostr` and
  `sendmessage` produces the counts, `success` and the error lines.
- **Inbox screening** in `getmessage`'s `onevent`. Events older than 100 s
  are dropped. Then the `processedmsgs` first-in first-out record of ids,
  capacity 1000, drops duplicates.
- **Hex keys.** `setPrivateKey` validates 64 hexadecimal characters and
  decodes them into 32 bytes. `generateNewKey`/`getKeyInfo` write bytes back
  as zero-padded lowercase hex.

The class `Client.NostrClient` holds the client's mutable fields: `relays`,
`privateKey`, `publicKey` and `processedmsgs`. Its methods update those
fields as the source does.

Foreign calls become parameters of the operations that use them:
- `getEventHash`, `finalizeEvent` and `getPublicKey`;
- `nip04.encrypt`/`decrypt`;
- `nip19.decode`/`npubEncode`/`nsecEncode`;
- the secret from `generateSecretKey`;
- the settled results of `pool.publish`;
- `Date.now()`.

A call that can throw is modelled with an `Option` result, where `None`
stands for the throw.

Modules, one file each:
- `Basics`: `Option`/`Result`, character classes, `trim`, `String(n)`, `replace`.
- `Events`: event records.
- `ContentTags`: extraction.
- `ProofOfWork`: the nonce search.
- `Compose`: tag assembly.
- `Publish`: the fold.
- `HexKey`: key validation, decoding and encoding.
- `Inbox`: the age filter and the id record.
- `Client`: the `NostrSDK` class.

The publish summary follows the code: `success` is `successful > 0`.
An empty relay list therefore gives `success: false` with `published: 0`,
not a successful result.

## Model

| member | source | states |
|---|---|---|
| ContentTags.ExtractContentTags | index.js:36-63 | Returns exactly the four extracted lists `ContentTagsOf(content)`: hashtags, links, mentions, notes. |
| ContentTags.KeepMentions | index.js:49-56 | The push loop keeps each mention match with its first `@` removed, if the rest is 63 characters long, in match order. |
| ContentTags.HashtagsAreEveryHashWord | index.js:38-45 | The global left-to-right hashtag match gives the same list as taking, at every `#` followed by a word character, the maximal `[a-zA-Z0-9_]` run. |
| ContentTags.HashtagsCharacterized | index.js:38-45 | Every hashtag is a non-empty run of lowercase word characters. A text is a hashtag of `s` iff it is the lowercased maximal word run after some `#` in `s`. |
| ContentTags.HashtagRepeatedWord | index.js:43-45 | A repeated word produces the hashtag twice (duplicates are kept), lowercased, for example for `Hello #w #w`. |
| ContentTags.LinksAreMatches | index.js:39-47 | Every link starts with `https://` or `http://`, and is a maximal run of URL characters after that scheme at some position of the text. |
| ContentTags.MentionsCharacterized | index.js:40-56 | The mentions equal the per-position list of `@npub` plus 59 alphanumerics. There is one mention per regex match, so the 63-character check drops nothing. Each mention is `npub` plus 59 alphanumerics. |
| ContentTags.NotesAreTokens | index.js:41-60 | Every note reference is 63 characters: `note` followed by 59 alphanumerics, with a matched `nostr:` prefix removed. |
| ContentTags.NostrPrefixStripped | index.js:58-60 | A bare `note` token and the same token behind `nostr:` both give exactly that token as the only reference. |
| ProofOfWork.CalculatePow | index.js:71-101 | The search loop returns what `Mine` specifies. For difficulty 0 that is the event unchanged. |
| ProofOfWork.StampShape | index.js:80-90 | A stamped event holds the caller's non-`nonce` tags in order. They are followed by exactly one `nonce` tag, `["nonce", String(n), String(d)]`, last. All other fields are the caller's. |
| ProofOfWork.StampRestrips | index.js:89 | Stripping a stamped event's `nonce` tags gives back the caller's non-`nonce` tags. Restamping therefore never accumulates nonce tags. |
| ProofOfWork.WithoutNonceKeeps | index.js:89 | The filter keeps exactly the tags whose first entry is not `"nonce"`, in order and with their multiplicity. A single tag survives iff it is not a nonce tag, and filtering a concatenation filters each part. A list without nonce tags is unchanged. |
| ProofOfWork.MineLeastWitness | index.js:74-98 | For difficulty > 0, a result is the stamp of some counter below 10,000,000. The hash of that stamp starts with `d` zeros, and no smaller counter's stamp does. |
| ProofOfWork.MineFindsLeast | index.js:74-98 | Conversely, the least winning counter below the ceiling is the one returned. |
| ProofOfWork.MineExceeded | index.js:92-97 | The search throws, with the difficulty in the error, iff no counter in 0..9,999,999 wins. |
| ProofOfWork.MinedNonceBelowCeiling | index.js:90-97 | A returned event's last tag never names a counter of 10,000,000 or more, and the event carries exactly one nonce tag. |
| Basics.DecimalStringInjective | index.js:90 | `String(n)` is injective on counters, so the nonce tag names its counter unambiguously. |
| Compose.PushHashtagTags | index.js:212-214 | The hashtag `forEach` appends `["t", h]` for each hashtag, in order. |
| Compose.PushDecodedTags | index.js:217-238 | The mention and note `forEach` loops append `[letter, data]` for each item whose decoding has the wanted type, and nothing for the others. |
| Compose.BuildAutoTags | index.js:209-238 | `autoTags` is the `t` tags, then the `p` tags, then the `e` tags. |
| Compose.HashtagTagsAt | index.js:212-214 | One `t` tag per hashtag: tag `k` is `["t", hashtags[k]]`. |
| Compose.DecodedTagsMembership | index.js:217-238 | A tag is produced iff it is `[letter, data]` for some item whose decoding gives the wanted type with that data. |
| Compose.DecodeFailureSkipped | index.js:217-226 | An item whose decoding throws or has another type adds nothing. The tags of the items before and after it are unaffected. |
| Compose.NoteTagsLayout | index.js:209-241 | The final tags are the manual tags unchanged, then `["t", h]` per hashtag in order. After those come exactly the `p` tags of the decodable mentions, then the `e` tags of the decodable note references, each for an extracted item whose decoding has the matching type. |
| Compose.ComposeNote | index.js:205-250 | The unsigned note is kind 1, with the message as content, `created_at` = now / 1000 rounded down, the assembled tags and the client's public key. |
| Publish.Aggregate | index.js:268-289 | The `forEach` fold computes exactly `Summary(targetRelays, results)`. |
| Publish.SummaryCounts | index.js:268-289 | `published + failed` = number of results, and the number of error lines = `failed`. `totalRelays` = relay-list length. `success` iff `published > 0` iff some result is fulfilled. |
| Publish.EmptyPublishFails | index.js:282 | With no results, nothing is published, nothing fails and `success` is false. |
| Publish.ErrorLinesFollowRejections | index.js:272-279 | Error line `k` belongs to the `k`-th rejected result, in index order. It is written `targetRelays[index] + ": " + reason`, with `undefined` for an index past the relay list. |
| Publish.AllFulfilled | index.js:272-279 | When every relay accepts, every result counts as published and there are no errors. |
| Publish.ThreeRelaysOneRefuses | index.js:268-289 | Three relays with the second refusing give `success`, 2 published, 1 failed, 3 relays, and the one error naming the second relay. |
| HexKey.DecodeHexKey | index.js:128-136 | The key text is rejected iff it is not exactly 64 hex characters. Otherwise the loop fills 32 bytes, byte `i` being the value of characters `2i`, `2i+1`. |
| HexKey.HexKeyBytesAt | index.js:133-136 | Byte `i` is 16 × value of character `2i` + value of character `2i+1`. |
| HexKey.ByteToHexDigits | index.js:167 | `toString(16).padStart(2, "0")` writes every byte as two lowercase digits, high nibble first. |
| HexKey.EncodeHexAt | index.js:167 | The joined encoding has two characters per byte, the digits of byte `i` at `2i` and `2i+1`. |
| HexKey.EncodeDecodedKey | index.js:128-136 | Re-encoding the bytes of an accepted key text gives that text lowercased. |
| HexKey.DecodeEncodedKey | index.js:183 | The reported hex of a 32-byte key is accepted by `setPrivateKey` and decodes to that key. |
| HexKey.CaseInsensitiveKey | index.js:129-136 | Key texts differing only in letter case decode to the same key. |
| Inbox.StaleNeverRecorded | index.js:327-331 | An event older than 100 s is dropped before the duplicate check and never recorded. |
| Inbox.FreshVerdict | index.js:327-336 | An event passing the age check is dropped as a duplicate iff its id is recorded, and accepted otherwise. |
| Inbox.RecordKeepsWellFormed | index.js:338-341 | Recording a new id keeps at most 1000 ids with no duplicates, and the id becomes the newest entry. |
| Inbox.RecordEvictsOldest | index.js:338-341 | Below capacity the id is appended. At capacity exactly the oldest id is removed. |
| Inbox.RecordIsWindow | index.js:338-341 | Recording yields the newest 1000 entries of the appended list. |
| Inbox.CacheAfterWellFormed | index.js:327-341 | Every delivery keeps the record within capacity and free of duplicates. |
| Inbox.RedeliveryRejected | index.js:333-341 | After a delivery passes the age check, its id is recorded whether or not it is decrypted. The same id delivered next is not accepted. |
| Inbox.RecordAllIsWindow | index.js:338-341 | After a run of new ids, the record is the newest 1000 entries of the old record followed by the run. |
| Inbox.ScreenAllFresh | index.js:327-341 | Fresh, distinct, new deliveries are each recorded, the same as recording them one by one, and the record stays well-formed. |
| Inbox.FirstIdForgotten | index.js:113 | After 1001 distinct fresh ids into an empty record, only the last 1000 remain. A redelivery of the first id is then accepted again. |
| Basics.TrimCharacterized | index.js:356 | `trim` returns a slice of its input from which all leading and trailing whitespace is removed, and nothing else. |
| Client.PreparedNoteShape | index.js:243-258 | The note that is signed is kind 1 with the message and public key. Without proof of work it carries the composed tags. With proof of work it carries them without `nonce` tags, plus one nonce tag below the ceiling, and its hash meets the difficulty. |
| Client.RecipientCases | index.js:395-405 | A recipient not starting with `npub` is used as given. An `npub` recipient is an error iff its decoding throws. An `npub` recipient whose decoding has type `npub` is replaced by the decoded data, and the text is replaced only in that case. |
| Client.NostrClient.constructor | index.js:107-113 | The relays are the given list (even an empty one) or the 14 defaults. There are no keys and an empty id record. |
| Client.NostrClient.SetPrivateKey | index.js:127-140 | An invalid text fails and changes nothing. A valid one stores its 32 bytes. Then the public key is derived: on success it is stored, and if the derivation throws the call fails and the old public key stays beside the new private key. |
| Client.NostrClient.GenerateNewKey | index.js:163-172 | Installs the secret and its public key, and reports hex that `SetPrivateKey` accepts and decodes back to the secret. |
| Client.NostrClient.GetKeyInfo | index.js:177-190 | Fails iff no key is set or the public key is empty. Otherwise it reports the key's hex encoding, which has only lowercase digits, is a valid key text and decodes to the stored key. It also reports the public key, the `nsec` of the private key and the `npub` of the public key. |
| Client.NostrClient.GetMessage | index.js:301-320 | Fails iff no keys are set. Otherwise the filter is kinds `[4]`, `#p` = our public key, and `since` = the given one or now / 1000 rounded down − 100. |
| Client.NostrClient.OnEvent | index.js:321-367 | The id record becomes `CacheAfter` of the old one, and keys and relays are unchanged. A message is delivered iff the event is accepted, it decrypts and its sender encodes as an `npub`. Its content is the trimmed plaintext. |
| Client.NostrClient.PostToNostr | index.js:198-294 | Fails without a key and when mining throws. Otherwise it returns the summary of publishing the signed prepared note, its id and the difficulty. |
| Client.NostrClient.SendMessage | index.js:391-453 | Fails without a key, for an undecodable `npub` and when encryption throws. Otherwise it publishes the signed kind-4 event tagged `["p", recipient]` and returns its summary and id. |
| Client.NostrClient.Destroy | index.js:458-463 | Empties the id record and keeps keys and relays. |

## Left out

- Cryptography is left out because it lives in `nostr-tools`: `getEventHash`, `finalizeEvent`, `getPublicKey`, `generateSecretKey` and `nip04.encrypt`/`decrypt`. These are function parameters. Decryption and encryption failures are `None`.
- NIP-19 bech32 is left out: `nip19.decode`, `npubEncode` and `nsecEncode` are parameters, not implementations.
- Relay I/O is left out: `SimplePool.publish`/`subscribe`, `Promise.allSettled`, the `oneose`/`onclose` handlers, the unsubscribe closure and `pool.destroy()`. Publish outcomes are an input sequence. `GetMessage` returns the subscription it would open. `OnEvent` returns what the callback would receive.
- The cooperative `setTimeout` yield in `calculatePow` and the `console` logging have no effect on results.
- `Date.now()` is a parameter `nowMs`.
- `setPrivateKeyFromNsec` is left out because its core is the bech32 decoder, which is outside this model. It does not go through `setPrivateKey`. It stores the decoded data of an `nsec` as the private key without any hex or length check, then calls `getPublicKey` itself. A throw there leaves the new private key beside the old public key, as in `SetPrivateKey`. It rethrows every error, including a decoding of another type, as "Failed to decode nsec: …".
- The key options of the constructor are left out. A `privateKey` option calls `setPrivateKey`, which `Client.NostrClient.SetPrivateKey` models as a separate call after construction. Failing that, an `nsec` option calls `setPrivateKeyFromNsec`, which is left out as above.
- The convenience wrappers `posttoNostr`, `getmessage` and `sendmessage` at the end of `index.js` are left out. Each constructs a client from its options and calls the method of the same name. When the options set no private key, `posttoNostr` and `sendmessage` first call `generateNewKey` and log the new keys (`Client.NostrClient.GenerateNewKey`); `getmessage` throws "Private key required for receiving messages" instead.
- Exceptions thrown by `finalizeEvent`, by `pool.publish` or by the `onMessage` callback are not modelled: signing and publishing are total functions here.
- Client.NostrClient.GenerateNewKey and Client.NostrClient.GetKeyInfo: `getPublicKey` and `npubEncode` are total here. They only see a fresh secret and the public key derived from a stored key, which these calls cannot reject. A throw from `getPublicKey` in `SetPrivateKey` and from `npubEncode` in `OnEvent` is modelled as `None`.
- Client.NostrClient.PostToNostr: the parameter defaults `tags = []`, `relays = null` and `powDifficulty = 4` are not modelled, because Dafny methods have no default arguments. Callers pass all three. A source caller that omits the difficulty gets proof of work at difficulty 4, which is `PostToNostr` with `powDifficulty` = 4.
- ProofOfWork.CalculatePow: the difficulty is a natural number. A negative or fractional difficulty, where `"0".repeat` throws or truncates, is not modelled. `PostToNostr` takes an integer and mines only when it is positive.
- Client.NostrClient.GenerateNewKey: requires a 32-byte secret, because that is what `generateSecretKey` always returns.
- Client.NostrClient.OnEvent: requires a private key, because `getmessage` refuses to subscribe without one and keys are never cleared.
- ContentTags.LinksAreMatches: links are proved sound (each one is a scheme plus a maximal run of URL characters), not matched against a per-position reference list.
- ContentTags.NotesAreTokens: note references are proved sound, not matched against a per-position reference list. A `note` token can start inside another alphanumeric run, so no simple per-position description exists.
- Strings are sequences of Unicode scalar values; the UTF-16 code units of JavaScript strings, and `toLowerCase` beyond ASCII, are not modelled. Hashtags contain only ASCII word characters, so lowercasing is exact for them.
- Gift-wrapped messages, time-bounded feed collection and reply tags do not appear in `index.js`, so they are not modelled.
