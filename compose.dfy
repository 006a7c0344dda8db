/** The tag list of a text note, as `posttoNostr` assembles it: the caller's
    tags, then a `t` tag per hashtag, a `p` tag per mention that decodes as
    an `npub`, an `e` tag per reference that decodes as a `note` (NIP-01
    tags, NIP-19 references). The bech32 decoder is a parameter. */
module Compose {
  import opened Basics
  import opened Events
  import opened ContentTags

  /** What `nip19.decode` returns: the entity type and its data. */
  datatype Decoded = Decoded(kind: string, data: string)

  /** `nip19.decode`: `None` where the decoder throws. */
  type Decoder = string -> Option<Decoded>

  /** `['t', hashtag]` for each hashtag, in order. */
  function HashtagTags(hashtags: seq<string>): seq<Tag>
    decreases |hashtags|
  {
    if |hashtags| == 0 then [] else [["t", hashtags[0]]] + HashtagTags(hashtags[1..])
  }

  /** `[letter, decoded.data]` for each item whose decode succeeds with type
      `kind`; an item whose decode throws or yields another type adds nothing. */
  function DecodedTags(items: seq<string>, decode: Decoder, kind: string, letter: string): seq<Tag>
    decreases |items|
  {
    if |items| == 0 then []
    else
      (match decode(items[0])
         case Some(d) => if d.kind == kind then [[letter, d.data]] else []
         case None => [])
      + DecodedTags(items[1..], decode, kind, letter)
  }

  /** `autoTags` of `posttoNostr` for the extracted `tags`. */
  function AutoTags(tags: TagSet, decode: Decoder): seq<Tag> {
    HashtagTags(tags.hashtags)
    + DecodedTags(tags.mentions, decode, "npub", "p")
    + DecodedTags(tags.notes, decode, "note", "e")
  }

  /** `[...tags, ...autoTags]` for a message. */
  function NoteTags(message: string, manualTags: seq<Tag>, decode: Decoder): seq<Tag> {
    manualTags + AutoTags(ContentTagsOf(message), decode)
  }

  /** The unsigned kind-1 draft of `posttoNostr`, stamped with the clock reading `nowMs`. */
  function NoteDraft(message: string, manualTags: seq<Tag>, pubkey: Option<string>,
                     nowMs: int, decode: Decoder): Event
  {
    Event(1, UnixSeconds(nowMs), NoteTags(message, manualTags, decode), message, pubkey)
  }

  /** One `t` tag per hashtag, in the hashtags' order. */
  lemma {:induction false} HashtagTagsAt(hashtags: seq<string>)
    ensures |HashtagTags(hashtags)| == |hashtags|
    ensures forall k :: 0 <= k < |hashtags| ==> HashtagTags(hashtags)[k] == ["t", hashtags[k]]
    decreases |hashtags|
  {
    if |hashtags| > 0 {
      HashtagTagsAt(hashtags[1..]);
    }
  }

  lemma {:induction false} DecodedTagsAppend(a: seq<string>, b: seq<string>, decode: Decoder,
                                              kind: string, letter: string)
    ensures DecodedTags(a + b, decode, kind, letter)
            == DecodedTags(a, decode, kind, letter) + DecodedTags(b, decode, kind, letter)
    decreases |a|
  {
    if |a| == 0 {
      assert a + b == b;
    } else {
      assert (a + b)[1..] == a[1..] + b;
      DecodedTagsAppend(a[1..], b, decode, kind, letter);
    }
  }

  /** An item that fails to decode, or decodes to another type, is skipped
      and does not abort the rest: the tags of the items around it are kept. */
  lemma DecodeFailureSkipped(a: seq<string>, x: string, b: seq<string>, decode: Decoder,
                             kind: string, letter: string)
    requires decode(x).None? || decode(x).value.kind != kind
    ensures DecodedTags(a + [x] + b, decode, kind, letter)
            == DecodedTags(a, decode, kind, letter) + DecodedTags(b, decode, kind, letter)
  {
    var front := DecodedTags(a, decode, kind, letter);
    var back := DecodedTags(b, decode, kind, letter);
    DecodedTagsAppend(a, [x], decode, kind, letter);
    SkippedItemAddsNothing(x, decode, kind, letter);
    assert DecodedTags(a + [x], decode, kind, letter) == front + [];
    DecodedTagsAppend(a + [x], b, decode, kind, letter);
  }

  lemma SkippedItemAddsNothing(x: string, decode: Decoder, kind: string, letter: string)
    requires decode(x).None? || decode(x).value.kind != kind
    ensures DecodedTags([x], decode, kind, letter) == []
  {
    assert [x][1..] == [];
    assert DecodedTags([x][1..], decode, kind, letter) == [];
  }

  /** A tag is produced exactly when some item decodes, with the right type, to its data. */
  lemma {:induction false} DecodedTagsMembership(items: seq<string>, decode: Decoder,
                                                  kind: string, letter: string, t: Tag)
    ensures t in DecodedTags(items, decode, kind, letter) <==>
              |t| == 2 && t[0] == letter
              && exists x :: x in items && decode(x) == Some(Decoded(kind, t[1]))
    decreases |items|
  {
    if |items| > 0 {
      DecodedTagsMembership(items[1..], decode, kind, letter, t);
      assert items == [items[0]] + items[1..];
      if |t| == 2 && t[0] == letter && decode(items[0]) == Some(Decoded(kind, t[1])) {
        assert t == [letter, t[1]];
      }
    }
  }

  /** A `p` tag for a mention that decodes as an `npub`, or an `e` tag for
      a reference that decodes as a `note`, of this message. */
  predicate IsDecodedReferenceTag(message: string, decode: Decoder, t: Tag) {
    |t| == 2
    && ((t[0] == "p" && exists m :: m in Mentions(message) && decode(m) == Some(Decoded("npub", t[1])))
        || (t[0] == "e" && exists n :: n in Notes(message) && decode(n) == Some(Decoded("note", t[1]))))
  }

  /** The `p` tags, then the `e` tags, of a message. */
  function ReferenceTags(message: string, decode: Decoder): seq<Tag> {
    DecodedTags(Mentions(message), decode, "npub", "p") + DecodedTags(Notes(message), decode, "note", "e")
  }

  lemma ReferenceTagsDecoded(message: string, decode: Decoder)
    ensures forall t :: t in ReferenceTags(message, decode) ==> IsDecodedReferenceTag(message, decode, t)
  {
    forall t | t in ReferenceTags(message, decode)
      ensures IsDecodedReferenceTag(message, decode, t)
    {
      DecodedTagsMembership(Mentions(message), decode, "npub", "p", t);
      DecodedTagsMembership(Notes(message), decode, "note", "e", t);
    }
  }

  lemma NoteTagsSplit(message: string, manualTags: seq<Tag>, decode: Decoder)
    ensures NoteTags(message, manualTags, decode)
            == manualTags + HashtagTags(Hashtags(message)) + ReferenceTags(message, decode)
  {
  }

  lemma ThreePartLayout(m: seq<Tag>, h: seq<Tag>, r: seq<Tag>)
    ensures (m + h + r)[..|m|] == m
    ensures forall k :: 0 <= k < |h| ==> (m + h + r)[|m| + k] == h[k]
    ensures (m + h + r)[|m| + |h|..] == r
  {
  }

  /** The composed tag list: the manual tags first and unchanged, then one `t`
      tag per hashtag of the text, then the `p` tags of the mentions followed
      by the `e` tags of the note references, each standing for an extracted
      item that decodes with the right type. */
  lemma NoteTagsLayout(message: string, manualTags: seq<Tag>, decode: Decoder)
    ensures |NoteTags(message, manualTags, decode)| >= |manualTags| + |Hashtags(message)|
    ensures NoteTags(message, manualTags, decode)[..|manualTags|] == manualTags
    ensures forall k :: 0 <= k < |Hashtags(message)| ==>
              NoteTags(message, manualTags, decode)[|manualTags| + k] == ["t", Hashtags(message)[k]]
    ensures NoteTags(message, manualTags, decode)[|manualTags| + |Hashtags(message)|..]
            == DecodedTags(Mentions(message), decode, "npub", "p") + DecodedTags(Notes(message), decode, "note", "e")
    ensures forall t :: t in NoteTags(message, manualTags, decode)[|manualTags| + |Hashtags(message)|..]
              ==> IsDecodedReferenceTag(message, decode, t)
  {
    var hs := Hashtags(message);
    NoteTagsSplit(message, manualTags, decode);
    HashtagTagsAt(hs);
    ThreePartLayout(manualTags, HashtagTags(hs), ReferenceTags(message, decode));
    ReferenceTagsDecoded(message, decode);
  }

  /** The `hashtags.forEach` loop: push `['t', hashtag]` onto `acc` for each hashtag. */
  method PushHashtagTags(acc: seq<Tag>, hashtags: seq<string>) returns (r: seq<Tag>)
    ensures r == acc + HashtagTags(hashtags)
  {
    r := acc;
    var i := 0;
    while i < |hashtags|
      invariant 0 <= i <= |hashtags|
      invariant r + HashtagTags(hashtags[i..]) == acc + HashtagTags(hashtags)
    {
      assert hashtags[i..][1..] == hashtags[i + 1..];
      r := r + [["t", hashtags[i]]];
      i := i + 1;
    }
    assert hashtags[i..] == [];
  }

  /** The `mentions.forEach` / `notes.forEach` loop: decode each item, push
      `[letter, data]` when the decoded type is `kind`, skip it otherwise. */
  method PushDecodedTags(acc: seq<Tag>, items: seq<string>, decode: Decoder,
                         kind: string, letter: string) returns (r: seq<Tag>)
    ensures r == acc + DecodedTags(items, decode, kind, letter)
  {
    r := acc;
    var i := 0;
    while i < |items|
      invariant 0 <= i <= |items|
      invariant r + DecodedTags(items[i..], decode, kind, letter)
                == acc + DecodedTags(items, decode, kind, letter)
    {
      assert items[i..][1..] == items[i + 1..];
      var decoded := decode(items[i]);
      if decoded.Some? && decoded.value.kind == kind {
        r := r + [[letter, decoded.value.data]];
      }
      i := i + 1;
    }
    assert items[i..] == [];
  }

  /** `autoTags`, built with the three `forEach` loops and `push` of `posttoNostr`. */
  method BuildAutoTags(tags: TagSet, decode: Decoder) returns (autoTags: seq<Tag>)
    ensures autoTags == AutoTags(tags, decode)
  {
    autoTags := PushHashtagTags([], tags.hashtags);
    autoTags := PushDecodedTags(autoTags, tags.mentions, decode, "npub", "p");
    autoTags := PushDecodedTags(autoTags, tags.notes, decode, "note", "e");
  }

  /** The kind-1 draft of `posttoNostr`, built as the source does: extract,
      assemble the automatic tags, append them to the manual ones. */
  method ComposeNote(message: string, manualTags: seq<Tag>, pubkey: Option<string>,
                     nowMs: int, decode: Decoder) returns (draft: Event)
    ensures draft == NoteDraft(message, manualTags, pubkey, nowMs, decode)
    ensures draft.kind == 1 && draft.content == message && draft.createdAt == nowMs / 1000
  {
    var contentTags := ExtractContentTags(message);
    var autoTags := BuildAutoTags(contentTags, decode);
    draft := Event(1, UnixSeconds(nowMs), manualTags + autoTags, message, pubkey);
  }
}
