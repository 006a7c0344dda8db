/** `extractContentTags`: the four global regular-expression scans over a
    note's text (hashtags, links, `@npub` mentions, `note` references).

    Each `String.prototype.match` with a `/g` pattern is a scanner that tries
    the pattern at every index from left to right, takes the leftmost match,
    and resumes the search where that match ended (matches never overlap). */
module ContentTags {
  import opened Basics

  /** What `extractContentTags` returns. */
  datatype TagSet = TagSet(
    hashtags: seq<string>,
    links: seq<string>,
    mentions: seq<string>,
    notes: seq<string>)

  // ---------------------------------------------------------------------------
  // Hashtags: /#([a-zA-Z0-9_]+)/g, then tag.slice(1).toLowerCase()
  // ---------------------------------------------------------------------------

  /** Where the greedy run `[a-zA-Z0-9_]+` that starts at `i` stops. */
  function WordRunEnd(s: string, i: nat): (j: nat)
    requires i <= |s|
    ensures i <= j <= |s|
    ensures forall k :: i <= k < j ==> IsWordChar(s[k])
    ensures j == |s| || !IsWordChar(s[j])
    decreases |s| - i
  {
    if i < |s| && IsWordChar(s[i]) then WordRunEnd(s, i + 1) else i
  }

  /** The hashtag pattern matches at `p`: a `#` and at least one word character. */
  predicate HashtagAt(s: string, p: nat) {
    p + 1 < |s| && s[p] == '#' && IsWordChar(s[p + 1])
  }

  /** `s.match(/#([a-zA-Z0-9_]+)/g)` from index `i` on: the whole matches, `#` included. */
  function HashtagMatchesFrom(s: string, i: nat): seq<string>
    requires i <= |s|
    decreases |s| - i
  {
    if i == |s| then []
    else if HashtagAt(s, i) then
      var j := WordRunEnd(s, i + 1);
      [s[i..j]] + HashtagMatchesFrom(s, j)
    else HashtagMatchesFrom(s, i + 1)
  }

  /** `tag.slice(1).toLowerCase()` */
  function HashtagText(tag: string): string {
    AsciiLower(SliceFrom1(tag))
  }

  /** The `hashtags` field of `extractContentTags`. */
  function Hashtags(s: string): seq<string> {
    MapSeq(HashtagText, HashtagMatchesFrom(s, 0))
  }

  /** Reference description, independent of where the scanner resumes:
      one lower-cased word for every `#` at index `i` or later that is directly
      followed by a word character, in text order. */
  function HashtagsByPosition(s: string, i: nat): seq<string>
    requires i <= |s|
    decreases |s| - i
  {
    if i == |s| then []
    else (if HashtagAt(s, i) then [AsciiLower(s[i + 1..WordRunEnd(s, i + 1)])] else [])
         + HashtagsByPosition(s, i + 1)
  }

  lemma {:induction false} HashtagsByPositionSkip(s: string, i: nat, j: nat)
    requires i <= j <= |s|
    requires forall k :: i <= k < j ==> s[k] != '#'
    ensures HashtagsByPosition(s, i) == HashtagsByPosition(s, j)
    decreases j - i
  {
    if i < j {
      HashtagsByPositionSkip(s, i + 1, j);
    }
  }

  lemma {:induction false} HashtagScanFrom(s: string, i: nat)
    requires i <= |s|
    ensures MapSeq(HashtagText, HashtagMatchesFrom(s, i)) == HashtagsByPosition(s, i)
    decreases |s| - i
  {
    if i == |s| {
    } else if HashtagAt(s, i) {
      var j := WordRunEnd(s, i + 1);
      var m := s[i..j];
      var rest := HashtagMatchesFrom(s, j);
      HashtagScanFrom(s, j);
      HashtagsByPositionSkip(s, i + 1, j);
      assert SliceFrom1(m) == s[i + 1..j];
      assert ([m] + rest)[1..] == rest;
    } else {
      HashtagScanFrom(s, i + 1);
    }
  }

  /** Because a word character is never `#`, the scanner misses no hashtag:
      every `#` followed by a word character yields exactly one entry, in text
      order, and repeated hashtags are all kept. */
  lemma HashtagsAreEveryHashWord(s: string)
    ensures Hashtags(s) == HashtagsByPosition(s, 0)
  {
    HashtagScanFrom(s, 0);
  }

  /** A lower-case ASCII word character: `[a-z0-9_]`. */
  predicate IsLowerWordChar(c: char) {
    'a' <= c <= 'z' || '0' <= c <= '9' || c == '_'
  }

  lemma {:induction false} HashtagsByPositionShape(s: string, i: nat)
    requires i <= |s|
    ensures forall h :: h in HashtagsByPosition(s, i) ==>
              |h| >= 1 && forall k :: 0 <= k < |h| ==> IsLowerWordChar(h[k])
    decreases |s| - i
  {
    if i < |s| {
      HashtagsByPositionShape(s, i + 1);
    }
  }

  lemma {:induction false} HashtagsByPositionMembership(s: string, i: nat, h: string)
    requires i <= |s|
    ensures h in HashtagsByPosition(s, i) <==>
              exists p: nat :: i <= p && HashtagAt(s, p) && h == AsciiLower(s[p + 1..WordRunEnd(s, p + 1)])
    decreases |s| - i
  {
    if i < |s| {
      HashtagsByPositionMembership(s, i + 1, h);
    }
  }

  /** Every hashtag is a non-empty run of `[a-z0-9_]`, and a string is a
      hashtag exactly when it is the lower-cased word after some `#` in the text. */
  lemma HashtagsCharacterized(s: string, h: string)
    ensures h in Hashtags(s) ==> |h| >= 1 && forall k :: 0 <= k < |h| ==> IsLowerWordChar(h[k])
    ensures h in Hashtags(s) <==>
              exists p: nat :: HashtagAt(s, p) && h == AsciiLower(s[p + 1..WordRunEnd(s, p + 1)])
  {
    HashtagsAreEveryHashWord(s);
    HashtagsByPositionShape(s, 0);
    HashtagsByPositionMembership(s, 0, h);
  }

  lemma {:induction false} WordRunEndAt(s: string, i: nat, j: nat)
    requires i <= j <= |s|
    requires forall k :: i <= k < j ==> IsWordChar(s[k])
    requires j == |s| || !IsWordChar(s[j])
    ensures WordRunEnd(s, i) == j
    decreases j - i
  {
    if i < j {
      WordRunEndAt(s, i + 1, j);
    }
  }

  /** One hashtag at `p` whose word runs to `e`, then the search resumes at `e`. */
  lemma HashtagStep(s: string, p: nat, e: nat)
    requires HashtagAt(s, p) && p + 1 <= e <= |s|
    requires forall k :: p + 1 <= k < e ==> IsWordChar(s[k])
    requires e == |s| || !IsWordChar(s[e])
    ensures HashtagsByPosition(s, p) == [AsciiLower(s[p + 1..e])] + HashtagsByPosition(s, e)
  {
    WordRunEndAt(s, p + 1, e);
    HashtagsByPositionSkip(s, p + 1, e);
  }

  /** The word `w` sits right after the prefix `a`, then comes `b`. */
  lemma WordInside(a: string, w: string, b: string)
    ensures (a + w + b)[|a|..|a| + |w|] == w
    ensures forall k :: |a| <= k < |a| + |w| ==> (a + w + b)[k] == w[k - |a|]
  {
    assert (a + w + b)[|a|..|a| + |w|] == w;
  }

  lemma HelloFirstTag(w: string, s: string)
    requires |w| >= 1 && forall k :: 0 <= k < |w| ==> IsLowerWordChar(w[k])
    requires s == "Hello #" + w + (" #" + w)
    ensures HashtagsByPosition(s, 0) == [w] + HashtagsByPosition(s, 7 + |w|)
  {
    assert forall k :: 0 <= k < 6 ==> s[k] != '#';
    HashtagsByPositionSkip(s, 0, 6);
    WordInside("Hello #", w, " #" + w);
    HashtagStep(s, 6, 7 + |w|);
    assert AsciiLower(w) == w;
  }

  lemma HelloSecondTag(w: string, s: string)
    requires |w| >= 1 && forall k :: 0 <= k < |w| ==> IsLowerWordChar(w[k])
    requires s == "Hello #" + w + " #" + w + ""
    ensures HashtagsByPosition(s, 7 + |w|) == [w]
  {
    WordInside("Hello #" + w + " #", w, "");
    HashtagsByPositionSkip(s, 7 + |w|, 8 + |w|);
    HashtagStep(s, 8 + |w|, |s|);
    assert AsciiLower(w) == w;
  }

  /** `extract("Hello #nostr #nostr")` keeps the duplicate, in order; here
      for any lower-case word in place of `nostr`. */
  lemma HashtagRepeatedWord(w: string)
    requires |w| >= 1 && forall k :: 0 <= k < |w| ==> IsLowerWordChar(w[k])
    ensures Hashtags("Hello #" + w + " #" + w) == [w, w]
  {
    var s := "Hello #" + w + " #" + w;
    assert s == "Hello #" + w + (" #" + w);
    assert s == "Hello #" + w + " #" + w + "";
    HelloFirstTag(w, s);
    HelloSecondTag(w, s);
    HashtagsAreEveryHashWord(s);
  }

  // ---------------------------------------------------------------------------
  // Links: /(https?:\/\/[^\s<>"{}|\\^`[\]]+)/g
  // ---------------------------------------------------------------------------

  /** `[^\s<>"{}|\\^`[\]]` */
  predicate IsLinkChar(c: char) {
    !IsJsWhitespace(c) && c !in "<>\"{}|\\^`[]"
  }

  /** Where the greedy run of link characters that starts at `i` stops. */
  function LinkRunEnd(s: string, i: nat): (j: nat)
    requires i <= |s|
    ensures i <= j <= |s|
    ensures forall k :: i <= k < j ==> IsLinkChar(s[k])
    ensures j == |s| || !IsLinkChar(s[j])
    decreases |s| - i
  {
    if i < |s| && IsLinkChar(s[i]) then LinkRunEnd(s, i + 1) else i
  }

  /** The scheme followed by at least one link character starts at `p`. */
  predicate SchemeAt(s: string, p: nat, scheme: string) {
    OccursAt(s, p, scheme) && p + |scheme| < |s| && IsLinkChar(s[p + |scheme|])
  }

  /** End of the link pattern's match at `p`, or `p` when it does not match
      there. `s?` is greedy, so `https://` is tried before `http://`. */
  function LinkMatchEnd(s: string, p: nat): (j: nat)
    requires p <= |s|
    ensures j == p || p < j <= |s|
    ensures j > p ==> j == |s| || !IsLinkChar(s[j])
    ensures j > p ==>
      (SchemeAt(s, p, "https://") && p + 8 < j && forall k :: p + 8 <= k < j ==> IsLinkChar(s[k]))
      || (SchemeAt(s, p, "http://") && p + 7 < j && forall k :: p + 7 <= k < j ==> IsLinkChar(s[k]))
    ensures j == p ==> !SchemeAt(s, p, "https://") && !SchemeAt(s, p, "http://")
  {
    if SchemeAt(s, p, "https://") then LinkRunEnd(s, p + 8)
    else if SchemeAt(s, p, "http://") then LinkRunEnd(s, p + 7)
    else p
  }

  /** `s.match(urlPattern)` from index `i` on. */
  function LinksFrom(s: string, i: nat): seq<string>
    requires i <= |s|
    decreases |s| - i
  {
    if i == |s| then []
    else
      var j := LinkMatchEnd(s, i);
      if j > i then [s[i..j]] + LinksFrom(s, j) else LinksFrom(s, i + 1)
  }

  /** The `links` field of `extractContentTags`. */
  function Links(s: string): seq<string> {
    LinksFrom(s, 0)
  }

  /** `l` is the link pattern's whole match at index `p` of `s`. */
  predicate LinkMatchAt(s: string, p: nat, l: string) {
    p < |s| && |l| > 0 && OccursAt(s, p, l) && LinkMatchEnd(s, p) == p + |l|
  }

  lemma {:induction false} LinksFromSound(s: string, i: nat, l: string)
    requires i <= |s|
    requires l in LinksFrom(s, i)
    ensures exists p: nat :: i <= p && LinkMatchAt(s, p, l)
    decreases |s| - i
  {
    var j := LinkMatchEnd(s, i);
    if j > i {
      if l == s[i..j] {
        assert LinkMatchAt(s, i, l);
      } else {
        LinksFromSound(s, j, l);
      }
    } else {
      LinksFromSound(s, i + 1, l);
    }
  }

  /** Every link is a whole match of the link pattern somewhere in the text:
      `http://` or `https://` followed by a non-empty, maximal run of
      characters outside `\s<>"{}|\^`[]`. */
  lemma LinksAreMatches(s: string, l: string)
    requires l in Links(s)
    ensures exists p: nat :: LinkMatchAt(s, p, l)
    ensures StartsWith(l, "https://") || StartsWith(l, "http://")
  {
    LinksFromSound(s, 0, l);
    var p: nat :| LinkMatchAt(s, p, l);
    if SchemeAt(s, p, "https://") {
      SchemeStartsLink(s, p, l, "https://");
    } else {
      SchemeStartsLink(s, p, l, "http://");
    }
  }

  lemma SchemeStartsLink(s: string, p: nat, l: string, scheme: string)
    requires OccursAt(s, p, l) && OccursAt(s, p, scheme) && |scheme| <= |l|
    ensures StartsWith(l, scheme)
  {
    assert l[..|scheme|] == s[p..p + |scheme|];
  }

  // ---------------------------------------------------------------------------
  // Mentions: /@(npub[a-zA-Z0-9]{59})/g, then match.replace('@', '') and a length check
  // ---------------------------------------------------------------------------

  /** Every index in `[i, j)` is an alphanumeric character. */
  predicate AlnumBetween(s: string, i: nat, j: nat)
    requires i <= j <= |s|
  {
    forall k :: i <= k < j ==> IsAlnum(s[k])
  }

  /** The mention pattern matches at `p`: `@npub` and then 59 alphanumerics (64 characters). */
  predicate MentionAt(s: string, p: nat) {
    p + 64 <= |s| && s[p] == '@' && s[p + 1..p + 5] == "npub" && AlnumBetween(s, p + 5, p + 64)
  }

  /** `s.match(mentionPattern)` from index `i` on: the whole matches, `@` included. */
  function MentionMatchesFrom(s: string, i: nat): seq<string>
    requires i <= |s|
    decreases |s| - i
  {
    if i == |s| then []
    else if MentionAt(s, i) then [s[i..i + 64]] + MentionMatchesFrom(s, i + 64)
    else MentionMatchesFrom(s, i + 1)
  }

  /** What the mention loop keeps of `matches`: each match with its `@`
      removed, if the rest is 63 characters long. */
  function MentionsOf(matches: seq<string>): seq<string>
    decreases |matches|
  {
    if |matches| == 0 then []
    else
      var npub := ReplaceFirst(matches[0], "@");
      (if |npub| == 63 then [npub] else []) + MentionsOf(matches[1..])
  }

  /** The `mentions` field of `extractContentTags`. */
  function Mentions(s: string): seq<string> {
    MentionsOf(MentionMatchesFrom(s, 0))
  }

  /** A public-key reference as the mention pattern captures it: `npub` and 59 alphanumerics. */
  predicate IsNpubToken(t: string) {
    |t| == 63 && t[..4] == "npub" && forall k :: 4 <= k < 63 ==> IsAlnum(t[k])
  }

  /** Reference description: the 63 characters after every `@` at index `i`
      or later at which the mention pattern matches, in text order. */
  function MentionsByPosition(s: string, i: nat): seq<string>
    requires i <= |s|
    decreases |s| - i
  {
    if i == |s| then []
    else (if MentionAt(s, i) then [s[i + 1..i + 64]] else []) + MentionsByPosition(s, i + 1)
  }

  lemma {:induction false} MentionsByPositionSkip(s: string, i: nat, j: nat)
    requires i <= j <= |s|
    requires forall k :: i <= k < j ==> s[k] != '@'
    ensures MentionsByPosition(s, i) == MentionsByPosition(s, j)
    decreases j - i
  {
    if i < j {
      MentionsByPositionSkip(s, i + 1, j);
    }
  }

  lemma MentionHasNoAt(s: string, p: nat)
    requires MentionAt(s, p)
    ensures forall k :: p + 1 <= k < p + 64 ==> s[k] != '@'
  {
    forall k | p + 1 <= k < p + 64 ensures s[k] != '@' {
      if k < p + 5 {
        assert s[k] == s[p + 1..p + 5][k - p - 1];
      } else {
        assert IsAlnum(s[k]);
      }
    }
  }

  lemma {:induction false} MentionScanFrom(s: string, i: nat)
    requires i <= |s|
    ensures MentionsOf(MentionMatchesFrom(s, i)) == MentionsByPosition(s, i)
    decreases |s| - i
  {
    if i == |s| {
    } else if MentionAt(s, i) {
      var m := s[i..i + 64];
      var rest := MentionMatchesFrom(s, i + 64);
      MentionScanFrom(s, i + 64);
      MentionHasNoAt(s, i);
      MentionsByPositionSkip(s, i + 1, i + 64);
      assert StartsWith(m, "@");
      ReplaceFirstAtStart(m, "@");
      assert ReplaceFirst(m, "@") == s[i + 1..i + 64];
      assert ([m] + rest)[1..] == rest;
    } else {
      MentionScanFrom(s, i + 1);
    }
  }

  lemma {:induction false} MentionsByPositionShape(s: string, i: nat)
    requires i <= |s|
    ensures forall t :: t in MentionsByPosition(s, i) ==> IsNpubToken(t)
    decreases |s| - i
  {
    if i < |s| {
      MentionsByPositionShape(s, i + 1);
      if MentionAt(s, i) {
        var t := s[i + 1..i + 64];
        assert t[..4] == s[i + 1..i + 5];
        assert forall k :: 4 <= k < 63 ==> t[k] == s[i + 1 + k];
      }
    }
  }

  lemma {:induction false} MentionMatchCount(s: string, i: nat)
    requires i <= |s|
    ensures |MentionsOf(MentionMatchesFrom(s, i))| == |MentionMatchesFrom(s, i)|
    decreases |s| - i
  {
    if i < |s| {
      if MentionAt(s, i) {
        var m := s[i..i + 64];
        var rest := MentionMatchesFrom(s, i + 64);
        MentionMatchCount(s, i + 64);
        ReplaceFirstAtStart(m, "@");
        assert ([m] + rest)[1..] == rest;
      } else {
        MentionMatchCount(s, i + 1);
      }
    }
  }

  /** Mentions are exactly the `npub` tokens after every `@` where the
      pattern matches, in text order; each is 63 characters, `npub` and 59
      alphanumerics, so the length check never drops a match. */
  lemma MentionsCharacterized(s: string)
    ensures Mentions(s) == MentionsByPosition(s, 0)
    ensures |Mentions(s)| == |MentionMatchesFrom(s, 0)|
    ensures forall t :: t in Mentions(s) ==> IsNpubToken(t)
  {
    MentionScanFrom(s, 0);
    MentionMatchCount(s, 0);
    MentionsByPositionShape(s, 0);
  }

  // ---------------------------------------------------------------------------
  // Note references: /(nostr:)?(note[a-zA-Z0-9]{59})/g, then note.replace('nostr:', '')
  // ---------------------------------------------------------------------------

  /** `note` and 59 alphanumerics start at `p`. */
  predicate NoteTokenAt(s: string, p: nat) {
    p + 63 <= |s| && s[p..p + 4] == "note" && AlnumBetween(s, p + 4, p + 63)
  }

  /** The optional group is greedy: at `p` the pattern first tries `nostr:` and a token. */
  predicate PrefixedNoteAt(s: string, p: nat) {
    p + 6 <= |s| && s[p..p + 6] == "nostr:" && NoteTokenAt(s, p + 6)
  }

  /** `s.match(notePattern)` from index `i` on: 69-character matches that
      keep their `nostr:` prefix, and bare 63-character ones. Unlike `#` and
      `@`, a token can hide another `note` inside it, which is then skipped. */
  function NoteMatchesFrom(s: string, i: nat): seq<string>
    requires i <= |s|
    decreases |s| - i
  {
    if i == |s| then []
    else if PrefixedNoteAt(s, i) then [s[i..i + 69]] + NoteMatchesFrom(s, i + 69)
    else if NoteTokenAt(s, i) then [s[i..i + 63]] + NoteMatchesFrom(s, i + 63)
    else NoteMatchesFrom(s, i + 1)
  }

  /** `note.replace('nostr:', '')` */
  function StripNostrUri(note: string): string {
    ReplaceFirst(note, "nostr:")
  }

  /** The `notes` field of `extractContentTags`. */
  function Notes(s: string): seq<string> {
    MapSeq(StripNostrUri, NoteMatchesFrom(s, 0))
  }

  /** An event reference as the note pattern captures it: `note` and 59 alphanumerics. */
  predicate IsNoteToken(t: string) {
    |t| == 63 && t[..4] == "note" && forall k :: 4 <= k < 63 ==> IsAlnum(t[k])
  }

  lemma NoteTokenShape(s: string, p: nat)
    requires NoteTokenAt(s, p)
    ensures IsNoteToken(s[p..p + 63])
  {
    var t := s[p..p + 63];
    assert t[..4] == s[p..p + 4];
    assert forall k :: 4 <= k < 63 ==> t[k] == s[p + k];
  }

  lemma {:induction false} NotesFromSound(s: string, i: nat, t: string)
    requires i <= |s|
    requires t in MapSeq(StripNostrUri, NoteMatchesFrom(s, i))
    ensures IsNoteToken(t)
    ensures exists p: nat :: i <= p && NoteTokenAt(s, p) && t == s[p..p + 63]
    decreases |s| - i
  {
    if i == |s| {
    } else if PrefixedNoteAt(s, i) {
      var m := s[i..i + 69];
      var rest := NoteMatchesFrom(s, i + 69);
      assert ([m] + rest)[1..] == rest;
      assert StartsWith(m, "nostr:");
      ReplaceFirstAtStart(m, "nostr:");
      if t == StripNostrUri(m) {
        assert t == s[i + 6..i + 69];
        NoteTokenShape(s, i + 6);
      } else {
        NotesFromSound(s, i + 69, t);
      }
    } else if NoteTokenAt(s, i) {
      var m := s[i..i + 63];
      var rest := NoteMatchesFrom(s, i + 63);
      assert ([m] + rest)[1..] == rest;
      if t == StripNostrUri(m) {
        NoteTokenShape(s, i);
        assert ':' !in m by {
          forall k | 0 <= k < |m| ensures m[k] != ':' {
            if k < 4 {
              assert m[k] == s[i..i + 4][k];
            } else {
              assert IsAlnum(s[i + k]);
            }
          }
        }
        ReplaceFirstAbsent(m, "nostr:", ':');
      } else {
        NotesFromSound(s, i + 63, t);
      }
    } else {
      NotesFromSound(s, i + 1, t);
    }
  }

  /** Every note reference is a `note` token of 63 characters taken from the
      text, with a matched `nostr:` prefix removed. */
  lemma NotesAreTokens(s: string, t: string)
    requires t in Notes(s)
    ensures IsNoteToken(t)
    ensures exists p: nat :: NoteTokenAt(s, p) && t == s[p..p + 63]
  {
    NotesFromSound(s, 0, t);
  }

  /** The `nostr:` URI prefix is stripped: a token with or without it gives the same reference. */
  lemma NostrPrefixStripped(t: string)
    requires IsNoteToken(t)
    ensures Notes(t) == [t]
    ensures Notes("nostr:" + t) == [t]
  {
    assert t[0..4] == t[..4];
    assert t[0..63] == t;
    assert NoteTokenAt(t, 0);
    assert !PrefixedNoteAt(t, 0);
    assert NoteMatchesFrom(t, 63) == [];
    assert ':' !in t by {
      forall k | 0 <= k < |t| ensures t[k] != ':' {
        if k < 4 {
          assert t[k] == t[..4][k];
        }
      }
    }
    ReplaceFirstAbsent(t, "nostr:", ':');
    assert NoteMatchesFrom(t, 0) == [t];
    assert MapSeq(StripNostrUri, [t]) == [StripNostrUri(t)] + MapSeq(StripNostrUri, [t][1..]);
    assert [t][1..] == [];
    var u := "nostr:" + t;
    assert u[0..6] == "nostr:";
    assert u[6..6 + 4] == t[..4];
    assert forall k :: 6 + 4 <= k < 6 + 63 ==> u[k] == t[k - 6];
    assert PrefixedNoteAt(u, 0);
    assert u[0..69] == u;
    assert NoteMatchesFrom(u, 69) == [];
    ReplaceFirstAtStart(u, "nostr:");
    assert u[6..] == t;
    assert NoteMatchesFrom(u, 0) == [u];
    assert MapSeq(StripNostrUri, [u]) == [StripNostrUri(u)] + MapSeq(StripNostrUri, [u][1..]);
    assert [u][1..] == [];
  }

  // ---------------------------------------------------------------------------
  // extractContentTags
  // ---------------------------------------------------------------------------

  /** What `extractContentTags(content)` returns. */
  function ContentTagsOf(content: string): TagSet {
    TagSet(Hashtags(content), Links(content), Mentions(content), Notes(content))
  }

  /** The mention loop of `extractContentTags`: strip the `@` of each match
      and push the rest when it is 63 characters long. */
  method KeepMentions(mentionMatches: seq<string>) returns (mentions: seq<string>)
    ensures mentions == MentionsOf(mentionMatches)
  {
    mentions := [];
    var i := 0;
    while i < |mentionMatches|
      invariant 0 <= i <= |mentionMatches|
      invariant mentions + MentionsOf(mentionMatches[i..]) == MentionsOf(mentionMatches)
    {
      var npub := ReplaceFirst(mentionMatches[i], "@");
      assert mentionMatches[i..][1..] == mentionMatches[i + 1..];
      if |npub| == 63 {
        mentions := mentions + [npub];
      }
      i := i + 1;
    }
    assert mentionMatches[i..] == [];
  }

  /** `extractContentTags`: the four global matches, the mention loop in between. */
  method ExtractContentTags(content: string) returns (t: TagSet)
    ensures t == ContentTagsOf(content)
  {
    var hashtags := MapSeq(HashtagText, HashtagMatchesFrom(content, 0));
    var links := LinksFrom(content, 0);
    var mentions := KeepMentions(MentionMatchesFrom(content, 0));
    var notes := MapSeq(StripNostrUri, NoteMatchesFrom(content, 0));
    t := TagSet(hashtags, links, mentions, notes);
  }
}
