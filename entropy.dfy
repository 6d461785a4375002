/** The entropy pool and identifier validator (`src/random.ts`, class `Random`):
    a fixed-size buffer of random 32-bit words served one draw at a time and
    refilled in place once exhausted, plus the identifier syntax check. */
module Entropy {
  import opened Base

  /** The two values of the `storeState` field. */
  datatype StoreState = Ready | Updating

  /** The constructor's default identifier length. */
  const DefaultIdLength: int := 10

  /** The default alphabet, spelt in its four runs so that the verifier can
      reason about each; character for character it is
      `0123456789ABCDEFGHIJKLMNOPQRSTUVWXYZ_abcdefghijklmnopqrstuvwxyz-`. */
  const DigitRun: string := "0123456789"
  const UpperRun: string := "ABCDEFGHIJKLMNOPQRSTUVWXYZ"
  const LowerRun: string := "abcdefghijklmnopqrstuvwxyz"
  const DefaultAlphabet: string := DigitRun + UpperRun + "_" + LowerRun + "-"

  /** The hub service builds its pool as `new Random(20)`. */
  const ServiceIdLength: int := 20

  /** The `{10,}` quantifier of the identifier pattern. */
  const MinIdLength: nat := 10

  /** The character class `[a-zA-Z0-9_-]` of the identifier pattern. */
  predicate IsIdChar(c: char) {
    ('a' <= c <= 'z') || ('A' <= c <= 'Z') || ('0' <= c <= '9') || c == '_' || c == '-'
  }

  /** Scans `s` left to right for a character outside the class. */
  function AllIdChars(s: string): (b: bool)
    ensures b <==> forall i :: 0 <= i < |s| ==> IsIdChar(s[i])
  {
    if s == [] then true else IsIdChar(s[0]) && AllIdChars(s[1..])
  }

  /** `validateUUID`: the anchored pattern `^[a-zA-Z0-9_-]{10,}$`. It fixes a
      minimum length of ten and reads neither the configured identifier
      length nor the configured alphabet. */
  function ValidateUuid(s: string): (b: bool)
    ensures b <==> |s| >= MinIdLength && forall i :: 0 <= i < |s| ==> IsIdChar(s[i])
  {
    |s| >= MinIdLength && AllIdChars(s)
  }

  /** JavaScript's `%`: the remainder of division truncated toward zero,
      so it takes the sign of the dividend. */
  function TruncRem(a: int, d: int): (r: int)
    requires d != 0
    ensures a >= 0 ==> 0 <= r < (if d > 0 then d else -d)
    ensures a < 0 ==> -(if d > 0 then d else -d) < r <= 0
    ensures (a - r) % (if d > 0 then d else -d) == 0
  {
    var m := if d > 0 then d else -d;
    if a >= 0 then
      assert a - a % m == (a / m) * m;
      MultipleRem(a / m, m);
      a % m
    else
      var b := -a;
      assert b - b % m == (b / m) * m;
      assert a + b % m == (-(b / m)) * m;
      MultipleRem(-(b / m), m);
      -(b % m)
  }

  /** A multiple of `m` leaves no remainder. */
  lemma MultipleRem(q: int, m: int)
    requires m > 0
    ensures (q * m) % m == 0
  {
    var x := q * m;
    var k := x / m;
    assert x == k * m + x % m;
    assert x % m == (q - k) * m;
    if q - k >= 1 {
      MulAtLeast(q - k, m);
    } else if q - k <= -1 {
      MulAtLeast(k - q, m);
    }
  }

  lemma {:induction false} MulAtLeast(t: int, m: int)
    requires t >= 1 && m > 0
    ensures t * m >= m
    decreases t
  {
    if t > 1 {
      MulAtLeast(t - 1, m);
      assert t * m == (t - 1) * m + m;
    }
  }


  /** The value `_random` computes from one buffer word: `word % (max - min) + min`. */
  function Reduce(word: uint32, min: int, max: int): (r: JsNumber)
    ensures r == NaN <==> max == min
    ensures max > min ==> r.Num? && min <= r.v < max
    ensures max < min ==> r.Num? && min <= r.v < min + (min - max)
  {
    if max == min then NaN else Num(TruncRem(word as int, max - min) + min)
  }

  /** What `nanoid` is assumed to hand out: `idLength` characters of the alphabet. */
  predicate MintedFrom(id: string, alphabet: string, idLength: int) {
    |id| == idLength && forall i :: 0 <= i < |id| ==> id[i] in alphabet
  }

  lemma DigitRunClass(c: char) ensures c in DigitRun <==> '0' <= c <= '9' {}
  lemma UpperRunClass(c: char) ensures c in UpperRun <==> 'A' <= c <= 'Z' {}
  lemma LowerRunClass(c: char) ensures c in LowerRun <==> 'a' <= c <= 'z' {}

  /** The default alphabet is exactly the validator's character class. */
  lemma DefaultAlphabetIsIdClass(c: char)
    ensures c in DefaultAlphabet <==> IsIdChar(c)
  {
    DigitRunClass(c);
    UpperRunClass(c);
    LowerRunClass(c);
    assert c in DefaultAlphabet <==> c in DigitRun || c in UpperRun || c == '_' || c in LowerRun || c == '-';
  }

  /** A default-alphabet identifier passes `validateUUID` exactly when the
      configured length is at least ten; with the service's length of
      twenty, or the constructor's default of ten, every minted identifier
      passes. */
  lemma MintedIdValidates(id: string, idLength: int)
    requires MintedFrom(id, DefaultAlphabet, idLength)
    ensures ValidateUuid(id) <==> idLength >= MinIdLength
    ensures idLength == ServiceIdLength ==> ValidateUuid(id)
    ensures idLength == DefaultIdLength ==> ValidateUuid(id)
  {
    forall i | 0 <= i < |id| ensures IsIdChar(id[i]) {
      DefaultAlphabetIsIdClass(id[i]);
    }
  }

  class Random {
    const idLength: int
    const alphabet: string
    const randomStoreSize: nat

    /** The `Uint32Array` buffer; allocated once, refilled in place. */
    const randomStore: array<uint32>
    var cursor: nat
    var storeState: StoreState

    /** Between calls the buffer keeps its size, the cursor points into it
        (or is 0 for an empty buffer) and the pool is ready. */
    ghost predicate Valid()
      reads this
    {
      && randomStore.Length == randomStoreSize
      && (cursor < randomStoreSize || cursor == 0)
      && storeState == Ready
    }

    /** `new Random(idLength, alphabet, randomStoreSize)`; `words` stands for
        what `crypto.getRandomValues` writes during the first refill. */
    constructor (idLength: int, alphabet: string, randomStoreSize: nat, words: seq<uint32>)
      requires |words| == randomStoreSize
      ensures Valid() && fresh(randomStore)
      ensures this.idLength == idLength && this.alphabet == alphabet
      ensures this.randomStoreSize == randomStoreSize
      ensures cursor == 0 && randomStore[..] == words
    {
      this.idLength := idLength;
      this.alphabet := alphabet;
      this.randomStoreSize := randomStoreSize;
      randomStore := new uint32[randomStoreSize];
      cursor := 0;
      storeState := Ready;
      new;
      UpdateStore(words);
    }

    /** `updateStore`: overwrite the whole buffer from the secure source,
        rewind the cursor, and pass through `updating` back to `ready`. */
    method UpdateStore(words: seq<uint32>)
      requires randomStore.Length == randomStoreSize
      requires |words| == randomStoreSize
      modifies this, randomStore
      ensures Valid()
      ensures randomStore[..] == words && cursor == 0
    {
      storeState := Updating;
      forall i | 0 <= i < randomStore.Length {
        randomStore[i] := words[i];
      }
      cursor := 0;
      storeState := Ready;
    }

    /** `random(min, max)`: the pool is always ready between calls, so the
        wait returns at once and `_random` runs. The value comes from the word
        under the cursor before it moves; when the cursor reaches the end the
        buffer is refilled from `refill` and the cursor rewinds. */
    method Draw(min: int, max: int, refill: seq<uint32>) returns (value: JsNumber)
      requires Valid()
      requires |refill| == randomStoreSize
      modifies this, randomStore
      ensures Valid()
      ensures value == if old(cursor) < randomStoreSize then Reduce(old(randomStore[cursor]), min, max) else NaN
      ensures old(cursor) + 1 < randomStoreSize ==>
                cursor == old(cursor) + 1 && randomStore[..] == old(randomStore[..])
      ensures old(cursor) + 1 >= randomStoreSize ==> cursor == 0 && randomStore[..] == refill
    {
      // Reading past the end of an empty `Uint32Array` gives `undefined`,
      // and `undefined % d` is `NaN`.
      if cursor < randomStore.Length {
        value := Reduce(randomStore[cursor], min, max);
      } else {
        value := NaN;
      }
      cursor := cursor + 1;
      if cursor >= randomStoreSize {
        UpdateStore(refill);
      }
    }
  }
}
