/** `calculatePow`: the nonce search of NIP-13, with the difficulty counted in
    leading hexadecimal `'0'` characters of the event hash (not in leading
    zero bits). The hash function is a parameter: `getEventHash` lives in
    the signing library. */
module ProofOfWork {
  import opened Basics
  import opened Events

  /** The counter is checked after it is incremented, so the nonces
      `0 .. MaxAttempts - 1` can be accepted and `MaxAttempts` itself throws. */
  const MaxAttempts: nat := 10000000

  /** The error `calculatePow` throws once the counter passes the ceiling. */
  datatype PowError = PowExceeded(difficulty: nat)

  /** `tag[0] === "nonce"`; an empty tag has `undefined` there and is kept. */
  predicate IsNonceTag(tag: Tag) {
    |tag| > 0 && tag[0] == "nonce"
  }

  /** `tags.filter((tag) => tag[0] !== "nonce")` */
  function WithoutNonce(tags: seq<Tag>): (r: seq<Tag>)
    decreases |tags|
  {
    if |tags| == 0 then []
    else (if IsNonceTag(tags[0]) then [] else [tags[0]]) + WithoutNonce(tags[1..])
  }

  /** `["nonce", String(nonce), String(difficulty)]` */
  function NonceTag(nonce: nat, difficulty: nat): Tag {
    ["nonce", DecimalString(nonce), DecimalString(difficulty)]
  }

  /** The draft one round of the loop hashes: the nonce tags stripped and a
      fresh one appended, every other field as the caller gave it. */
  function Stamp(e: Event, nonce: nat, difficulty: nat): Event {
    e.(tags := WithoutNonce(e.tags) + [NonceTag(nonce, difficulty)])
  }

  /** `hash.startsWith("0".repeat(difficulty))` */
  predicate MeetsDifficulty(hash: string, difficulty: nat) {
    StartsWith(hash, Zeros(difficulty))
  }

  /** Round `nonce` succeeds. */
  predicate Wins(e: Event, difficulty: nat, hash: Event -> string, nonce: nat) {
    MeetsDifficulty(hash(Stamp(e, nonce, difficulty)), difficulty)
  }

  /** The first winning counter from `n` on, below the ceiling. */
  function LeastNonceFrom(e: Event, difficulty: nat, hash: Event -> string, n: nat): Option<nat>
    decreases MaxAttempts - n
  {
    if n >= MaxAttempts then None
    else if Wins(e, difficulty, hash, n) then Some(n)
    else LeastNonceFrom(e, difficulty, hash, n + 1)
  }

  /** What `calculatePow(e, difficulty)` resolves to, or the error it throws. */
  function Mine(e: Event, difficulty: nat, hash: Event -> string): Result<Event, PowError> {
    if difficulty == 0 then Ok(e)
    else match LeastNonceFrom(e, difficulty, hash, 0)
      case Some(n) => Ok(Stamp(e, n, difficulty))
      case None => Err(PowExceeded(difficulty))
  }

  // ---------------------------------------------------------------------------
  // The tag filter
  // ---------------------------------------------------------------------------

  /** The filter keeps exactly the non-nonce tags, in their original order
      and multiplicity: a single tag survives iff it is not a nonce tag, and
      filtering a concatenation filters each part. */
  lemma {:induction false} WithoutNonceKeeps(tags: seq<Tag>)
    ensures forall t :: t in WithoutNonce(tags) <==> t in tags && !IsNonceTag(t)
    ensures forall k :: 0 <= k < |WithoutNonce(tags)| ==> !IsNonceTag(WithoutNonce(tags)[k])
    ensures (forall k :: 0 <= k < |tags| ==> !IsNonceTag(tags[k])) ==> WithoutNonce(tags) == tags
    ensures forall t :: WithoutNonce([t]) == if IsNonceTag(t) then [] else [t]
    ensures forall rest :: WithoutNonce(tags + rest) == WithoutNonce(tags) + WithoutNonce(rest)
    decreases |tags|
  {
    if |tags| > 0 {
      WithoutNonceKeeps(tags[1..]);
      assert tags == [tags[0]] + tags[1..];
    }
    forall t
      ensures WithoutNonce([t]) == if IsNonceTag(t) then [] else [t]
    {
      assert [t][1..] == [];
    }
    forall rest
      ensures WithoutNonce(tags + rest) == WithoutNonce(tags) + WithoutNonce(rest)
    {
      WithoutNonceAppend(tags, rest);
    }
  }

  lemma {:induction false} WithoutNonceAppend(a: seq<Tag>, b: seq<Tag>)
    ensures WithoutNonce(a + b) == WithoutNonce(a) + WithoutNonce(b)
    decreases |a|
  {
    if |a| == 0 {
      assert a + b == b;
    } else {
      assert (a + b)[1..] == a[1..] + b;
      WithoutNonceAppend(a[1..], b);
    }
  }

  /** Stripping the nonce tags of a stamped draft gives back the caller's other tags. */
  lemma StampRestrips(e: Event, nonce: nat, difficulty: nat)
    ensures WithoutNonce(Stamp(e, nonce, difficulty).tags) == WithoutNonce(e.tags)
  {
    WithoutNonceAppend(WithoutNonce(e.tags), [NonceTag(nonce, difficulty)]);
    WithoutNonceKeeps(e.tags);
    WithoutNonceKeeps(WithoutNonce(e.tags));
    assert WithoutNonce([NonceTag(nonce, difficulty)]) == [];
  }

  /** The number of nonce tags in a tag list. */
  function NonceTagCount(tags: seq<Tag>): nat
    decreases |tags|
  {
    if |tags| == 0 then 0 else (if IsNonceTag(tags[0]) then 1 else 0) + NonceTagCount(tags[1..])
  }

  lemma {:induction false} NonceTagCountAppend(a: seq<Tag>, b: seq<Tag>)
    ensures NonceTagCount(a + b) == NonceTagCount(a) + NonceTagCount(b)
    decreases |a|
  {
    if |a| == 0 {
      assert a + b == b;
    } else {
      assert (a + b)[1..] == a[1..] + b;
      NonceTagCountAppend(a[1..], b);
    }
  }

  lemma {:induction false} NoNonceCountsZero(tags: seq<Tag>)
    requires forall k :: 0 <= k < |tags| ==> !IsNonceTag(tags[k])
    ensures NonceTagCount(tags) == 0
    decreases |tags|
  {
    if |tags| > 0 {
      NoNonceCountsZero(tags[1..]);
    }
  }

  /** A stamped draft holds the caller's non-nonce tags in order, then exactly
      one nonce tag, last, naming the counter and the difficulty; every field
      but the tags is the caller's. */
  lemma StampShape(e: Event, nonce: nat, difficulty: nat)
    ensures var w := Stamp(e, nonce, difficulty);
      && w.tags[..|w.tags| - 1] == WithoutNonce(e.tags)
      && w.tags[|w.tags| - 1] == ["nonce", DecimalString(nonce), DecimalString(difficulty)]
      && NonceTagCount(w.tags) == 1
      && w.kind == e.kind && w.createdAt == e.createdAt
      && w.content == e.content && w.pubkey == e.pubkey
  {
    var w := Stamp(e, nonce, difficulty);
    WithoutNonceKeeps(e.tags);
    NoNonceCountsZero(WithoutNonce(e.tags));
    NonceTagCountAppend(WithoutNonce(e.tags), [NonceTag(nonce, difficulty)]);
    assert w.tags[..|w.tags| - 1] == WithoutNonce(e.tags);
  }

  // ---------------------------------------------------------------------------
  // The search
  // ---------------------------------------------------------------------------

  lemma {:induction false} LeastNonceFromCorrect(e: Event, difficulty: nat, hash: Event -> string, n: nat)
    ensures match LeastNonceFrom(e, difficulty, hash, n)
      case Some(k) =>
        && n <= k < MaxAttempts && Wins(e, difficulty, hash, k)
        && forall m :: n <= m < k ==> !Wins(e, difficulty, hash, m)
      case None => forall m :: n <= m < MaxAttempts ==> !Wins(e, difficulty, hash, m)
    decreases MaxAttempts - n
  {
    if n < MaxAttempts && !Wins(e, difficulty, hash, n) {
      LeastNonceFromCorrect(e, difficulty, hash, n + 1);
    }
  }

  /** For a positive difficulty the result is the draft of the smallest
      counter from 0 up whose hash starts with `difficulty` zeros, and that
      counter is below the ceiling. */
  lemma MineLeastWitness(e: Event, difficulty: nat, hash: Event -> string)
    requires difficulty > 0 && Mine(e, difficulty, hash).Ok?
    ensures exists n ::
              && 0 <= n < MaxAttempts
              && Mine(e, difficulty, hash).value == Stamp(e, n, difficulty)
              && Wins(e, difficulty, hash, n)
              && forall m :: 0 <= m < n ==> !Wins(e, difficulty, hash, m)
    ensures MeetsDifficulty(hash(Mine(e, difficulty, hash).value), difficulty)
  {
    LeastNonceFromCorrect(e, difficulty, hash, 0);
    var n := LeastNonceFrom(e, difficulty, hash, 0).value;
    assert Mine(e, difficulty, hash).value == Stamp(e, n, difficulty);
  }

  /** Conversely, the least winning counter is the one used. */
  lemma MineFindsLeast(e: Event, difficulty: nat, hash: Event -> string, n: nat)
    requires difficulty > 0 && n < MaxAttempts && Wins(e, difficulty, hash, n)
    requires forall m :: 0 <= m < n ==> !Wins(e, difficulty, hash, m)
    ensures Mine(e, difficulty, hash) == Ok(Stamp(e, n, difficulty))
  {
    LeastNonceFromCorrect(e, difficulty, hash, 0);
  }

  /** The search throws exactly when no counter in `0 .. 9,999,999` wins. */
  lemma MineExceeded(e: Event, difficulty: nat, hash: Event -> string)
    requires difficulty > 0
    ensures Mine(e, difficulty, hash).Err? <==> forall m :: 0 <= m < MaxAttempts ==> !Wins(e, difficulty, hash, m)
    ensures Mine(e, difficulty, hash).Err? ==> Mine(e, difficulty, hash).error == PowExceeded(difficulty)
  {
    LeastNonceFromCorrect(e, difficulty, hash, 0);
  }

  /** No returned event carries a nonce of 10,000,000 or more, and its only
      nonce tag is the last one. */
  lemma MinedNonceBelowCeiling(e: Event, difficulty: nat, hash: Event -> string, m: nat)
    requires difficulty > 0 && Mine(e, difficulty, hash).Ok? && m >= MaxAttempts
    ensures var tags := Mine(e, difficulty, hash).value.tags;
      |tags| > 0 && tags[|tags| - 1] != NonceTag(m, difficulty) && NonceTagCount(tags) == 1
  {
    MineLeastWitness(e, difficulty, hash);
    var n :| 0 <= n < MaxAttempts && Mine(e, difficulty, hash).value == Stamp(e, n, difficulty);
    StampShape(e, n, difficulty);
    if NonceTag(m, difficulty) == NonceTag(n, difficulty) {
      assert NonceTag(m, difficulty)[1] == NonceTag(n, difficulty)[1];
      DecimalStringInjective(m, n);
    }
  }

  /** `calculatePow`: a `do ... while` loop that restamps a copy of the event
      until its hash meets the difficulty. The caller's event is a value and
      is never changed; the cooperative `setTimeout` yield has no effect on
      the result and is not modelled. */
  method CalculatePow(event: Event, difficulty: nat, getEventHash: Event -> string)
    returns (r: Result<Event, PowError>)
    ensures r == Mine(event, difficulty, getEventHash)
    ensures difficulty == 0 ==> r == Ok(event)
  {
    if difficulty == 0 {
      return Ok(event);
    }
    var nonce: nat := 0;
    var targetPrefix := Zeros(difficulty);
    var workEvent := event;
    while true
      invariant nonce <= MaxAttempts
      invariant workEvent.(tags := event.tags) == event
      invariant WithoutNonce(workEvent.tags) == WithoutNonce(event.tags)
      invariant LeastNonceFrom(event, difficulty, getEventHash, nonce)
                == LeastNonceFrom(event, difficulty, getEventHash, 0)
      decreases MaxAttempts - nonce
    {
      workEvent := workEvent.(tags := WithoutNonce(workEvent.tags) + [NonceTag(nonce, difficulty)]);
      assert workEvent == Stamp(event, nonce, difficulty);
      StampRestrips(event, nonce, difficulty);
      var hash := getEventHash(workEvent);
      nonce := nonce + 1;
      if nonce > MaxAttempts {
        return Err(PowExceeded(difficulty));
      }
      if StartsWith(hash, targetPrefix) {
        return Ok(workEvent);
      }
    }
  }
}
