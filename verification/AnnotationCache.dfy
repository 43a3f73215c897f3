/**
 The annotation cache's key and lookup: a 64-bit simhash of a screen text's tokens,
 kept in a signed column, and a lookup that takes the first near row among the most
 recently used.
 */
module AnnotationCache {
  import opened Common

  const BITS: nat := 64
  const MAX_HAMMING: nat := 3
  const CANDIDATES: nat := 64
  const WORD: nat := 0x1_0000_0000_0000_0000

  // --------------------------------------------------------------------- bits

  /** `(h >> b) & 1`. */
  predicate Bit(h: nat, b: nat) { if b == 0 then h % 2 == 1 else Bit(h / 2, b - 1) }

  /** `x ^ y`. */
  function Xor(x: nat, y: nat): nat {
    if x == 0 && y == 0 then 0 else (x % 2 + y % 2) % 2 + 2 * Xor(x / 2, y / 2)
  }

  /** `x.bit_count()`. */
  function BitCount(x: nat): nat { if x == 0 then 0 else x % 2 + BitCount(x / 2) }

  function Hamming(x: nat, y: nat): nat { BitCount(Xor(x, y)) }

  // ------------------------------------------------------------------ simhash

  /** How many tokens have the bit, less how many do not. */
  function Weight(tokens: seq<nat>, bit: nat): int {
    if tokens == [] then 0 else Vote(tokens[0], bit) + Weight(tokens[1..], bit)
  }

  function Vote(token: nat, bit: nat): int { if Bit(token, bit) then 1 else -1 }

  /** The number whose bits say which weights are positive. */
  function Pack(weights: seq<int>): nat {
    if weights == [] then 0 else (if weights[0] > 0 then 1 else 0) + 2 * Pack(weights[1..])
  }

  function Weights(tokens: seq<nat>): (w: seq<int>)
    ensures |w| == BITS && forall bit | 0 <= bit < BITS :: w[bit] == Weight(tokens, bit)
  {
    seq(BITS, bit requires 0 <= bit => Weight(tokens, bit))
  }

  /** `simhash64` of the tokens' hashes. */
  function Simhash(tokens: seq<nat>): nat { Pack(Weights(tokens)) }

  /** At how many places one list is positive and the other is not. */
  function Differ(v: seq<int>, w: seq<int>): nat
    requires |v| == |w|
  {
    if v == [] then 0 else (if (v[0] > 0) != (w[0] > 0) then 1 else 0) + Differ(v[1..], w[1..])
  }

  lemma {:induction false} PackedDistance(v: seq<int>, w: seq<int>)
    requires |v| == |w|
    ensures Hamming(Pack(v), Pack(w)) == Differ(v, w)
  {
    if v != [] {
      PackedDistance(v[1..], w[1..]);
      var x, y := Pack(v), Pack(w);
      assert x / 2 == Pack(v[1..]) && y / 2 == Pack(w[1..]);
      XorStep(x, y);
    }
  }

  lemma XorStep(x: nat, y: nat)
    ensures Hamming(x, y) == (if x % 2 != y % 2 then 1 else 0) + Hamming(x / 2, y / 2)
  {
    if x != 0 || y != 0 {
      var z := Xor(x, y);
      assert z / 2 == Xor(x / 2, y / 2) && z % 2 == (x % 2 + y % 2) % 2;
      assert BitCount(z) == z % 2 + BitCount(z / 2);
    }
  }

  lemma {:induction false} PackedBits(weights: seq<int>, bit: nat)
    ensures Bit(Pack(weights), bit) <==> (bit < |weights| && weights[bit] > 0)
  {
    if weights == [] {
      ZeroBits(bit);
    } else if bit > 0 {
      assert Pack(weights) / 2 == Pack(weights[1..]);
      PackedBits(weights[1..], bit - 1);
    }
  }

  lemma {:induction false} ZeroBits(bit: nat)
    ensures !Bit(0, bit)
  {
    if bit > 0 { ZeroBits(bit - 1); }
  }

  function Pow2(n: nat): (p: nat)
    ensures p > 0
  {
    if n == 0 then 1 else 2 * Pow2(n - 1)
  }

  lemma {:induction false} PackedBelow(weights: seq<int>)
    ensures Pack(weights) < Pow2(|weights|)
  {
    if weights != [] { PackedBelow(weights[1..]); }
  }

  lemma WordIsPow2()
    ensures Pow2(64) == WORD
  {
    assert Pow2(4) == 0x10;
    Pow2Doubled(4);
    Pow2Doubled(8);
    Pow2Doubled(16);
    Pow2Doubled(32);
  }

  lemma {:induction false} Pow2Sum(m: nat, n: nat)
    ensures Pow2(m + n) == Pow2(m) * Pow2(n)
  {
    if m > 0 {
      Pow2Sum(m - 1, n);
      assert Pow2(m) * Pow2(n) == 2 * (Pow2(m - 1) * Pow2(n));
    }
  }

  lemma Pow2Doubled(n: nat)
    ensures Pow2(n + n) == Pow2(n) * Pow2(n)
  {
    Pow2Sum(n, n);
  }

  /** A bit of the simhash says whether more tokens have it than not; no bit past the word. */
  lemma SimhashBits(tokens: seq<nat>, bit: nat)
    ensures Simhash(tokens) < WORD
    ensures Bit(Simhash(tokens), bit) <==> bit < BITS && Weight(tokens, bit) > 0
  {
    PackedBits(Weights(tokens), bit);
    PackedBelow(Weights(tokens));
    WordIsPow2();
  }

  // --------------------------------------------------------------- stability

  /** How many tokens were put in or taken out between the two texts. */
  function Edits(a: multiset<nat>, b: multiset<nat>): nat { |a - b| + |b - a| }

  lemma {:induction false} WeightOut(tokens: seq<nat>, i: nat, bit: nat)
    requires i < |tokens|
    ensures Weight(tokens, bit) == Vote(tokens[i], bit) + Weight(tokens[..i] + tokens[i + 1..], bit)
  {
    var out := tokens[..i] + tokens[i + 1..];
    if i == 0 {
      assert out == tokens[1..];
    } else {
      WeightOut(tokens[1..], i - 1, bit);
      assert out[1..] == tokens[1..][..i - 1] + tokens[1..][i..];
      assert out[0] == tokens[0];
    }
  }

  lemma MultisetOut(tokens: seq<nat>, i: nat)
    requires i < |tokens|
    ensures multiset(tokens) == multiset(tokens[..i] + tokens[i + 1..]) + multiset{tokens[i]}
  {
    assert tokens == tokens[..i] + [tokens[i]] + tokens[i + 1..];
  }

  lemma {:induction false} WeightBound(tokens: seq<nat>, bit: nat)
    ensures -|tokens| <= Weight(tokens, bit) <= |tokens|
  {
    if tokens != [] { WeightBound(tokens[1..], bit); }
  }

  lemma EditsShared(a: multiset<nat>, b: multiset<nat>, token: nat)
    ensures Edits(a + multiset{token}, b + multiset{token}) == Edits(a, b)
  {
    var one := multiset{token};
    assert (a + one) - (b + one) == a - b && (b + one) - (a + one) == b - a;
  }

  lemma EditsTakenOut(a: multiset<nat>, b: multiset<nat>, token: nat)
    requires token !in b
    ensures Edits(a + multiset{token}, b) == Edits(a, b) + 1
  {
    var one := multiset{token};
    assert (a + one) - b == (a - b) + one && b - (a + one) == b - a;
  }

  /** A token of both texts taken out of both: neither the edits nor the gap changes. */
  lemma SharedToken(a: seq<nat>, b: seq<nat>, bit: nat) returns (out: seq<nat>)
    requires a != [] && a[0] in multiset(b)
    ensures Edits(multiset(a[1..]), multiset(out)) == Edits(multiset(a), multiset(b))
    ensures Weight(b, bit) - Weight(out, bit) == Weight(a, bit) - Weight(a[1..], bit)
  {
    hide Edits, Weight, Vote;
    var i :| 0 <= i < |b| && b[i] == a[0];
    out := b[..i] + b[i + 1..];
    WeightOut(b, i, bit);
    MultisetOut(b, i);
    FirstOut(a, bit);
    EditsShared(multiset(a[1..]), multiset(out), a[0]);
  }

  lemma FirstOut(a: seq<nat>, bit: nat)
    requires a != []
    ensures Weight(a, bit) == Vote(a[0], bit) + Weight(a[1..], bit)
    ensures multiset(a) == multiset(a[1..]) + multiset{a[0]}
    ensures -1 <= Vote(a[0], bit) <= 1
  {
    assert a == [a[0]] + a[1..];
  }

  /** A weight moves by at most one for each token put in or taken out, whatever the order. */
  lemma {:induction false} WeightMoves(a: seq<nat>, b: seq<nat>, bit: nat)
    ensures Weight(a, bit) <= Weight(b, bit) + Edits(multiset(a), multiset(b))
    ensures Weight(b, bit) <= Weight(a, bit) + Edits(multiset(a), multiset(b))
  {
    hide Vote, Weight;
    if a == [] {
      WeightBound(b, bit);
      WeightBound(a, bit);
      assert multiset(b) - multiset(a) == multiset(b);
    } else if a[0] in multiset(b) {
      hide Edits;
      var out := SharedToken(a, b, bit);
      WeightMoves(a[1..], out, bit);
    } else {
      hide Edits;
      FirstOut(a, bit);
      EditsTakenOut(multiset(a[1..]), multiset(b), a[0]);
      WeightMoves(a[1..], b, bit);
    }
  }

  /** The number of weights that `edits` edits can carry across zero. */
  function Unstable(weights: seq<int>, edits: nat): nat {
    if weights == [] then 0
    else (if 0 < weights[0] + edits && weights[0] <= edits then 1 else 0) + Unstable(weights[1..], edits)
  }

  /** The bits whose weight lies within `edits` of zero (at -edits it stays below). */
  function UnstableBits(weights: seq<int>, edits: nat): set<nat> {
    set k: nat | k < |weights| && 0 < weights[k] + edits <= 2 * edits
  }

  lemma UnstableBitsLast(weights: seq<int>, edits: nat)
    requires weights != []
    ensures
      var n := |weights| - 1;
      && n !in UnstableBits(weights[..n], edits)
      && UnstableBits(weights, edits) == UnstableBits(weights[..n], edits) + if 0 < weights[n] + edits <= 2 * edits then {n} else {}
  {
  }

  lemma {:induction false} UnstableAre(weights: seq<int>, edits: nat)
    ensures Unstable(weights, edits) == |UnstableBits(weights, edits)|
    decreases |weights|
  {
    if weights != [] {
      hide UnstableBits, Unstable;
      UnstableAre(weights[..|weights| - 1], edits);
      UnstableBitsLast(weights, edits);
      UnstableLast(weights, edits);
    }
  }

  lemma {:induction false} UnstableLast(weights: seq<int>, edits: nat)
    requires weights != []
    ensures
      var n := |weights| - 1;
      Unstable(weights, edits) == Unstable(weights[..n], edits) + if 0 < weights[n] + edits <= 2 * edits then 1 else 0
  {
    var n := |weights| - 1;
    if n > 0 {
      UnstableLast(weights[1..], edits);
      assert weights[1..][..n - 1] == weights[..n][1..];
    }
  }

  lemma {:induction false} OnlyUnstableDiffer(v: seq<int>, w: seq<int>, edits: nat)
    requires |v| == |w| && forall i | 0 <= i < |v| :: v[i] <= w[i] + edits && w[i] <= v[i] + edits
    ensures Differ(v, w) <= Unstable(v, edits)
  {
    if v != [] {
      assert forall i | 0 <= i < |v| - 1 :: v[1..][i] == v[i + 1] && w[1..][i] == w[i + 1];
      OnlyUnstableDiffer(v[1..], w[1..], edits);
    }
  }

  /** Token noise: the distance of two keys is at most the number of unstable bits. */
  lemma NoiseMovesFewBits(a: seq<nat>, b: seq<nat>)
    ensures Hamming(Simhash(a), Simhash(b)) <= Unstable(Weights(a), Edits(multiset(a), multiset(b)))
  {
    var edits := Edits(multiset(a), multiset(b));
    PackedDistance(Weights(a), Weights(b));
    forall bit | 0 <= bit < BITS
      ensures Weights(a)[bit] <= Weights(b)[bit] + edits && Weights(b)[bit] <= Weights(a)[bit] + edits
    {
      WeightMoves(a, b, bit);
    }
    OnlyUnstableDiffer(Weights(a), Weights(b), edits);
  }

  /** The order of the tokens does not matter. */
  lemma OrderIsFree(a: seq<nat>, b: seq<nat>)
    requires multiset(a) == multiset(b)
    ensures Simhash(a) == Simhash(b)
  {
    forall bit | 0 <= bit < BITS
      ensures Weights(a)[bit] == Weights(b)[bit]
    {
      WeightMoves(a, b, bit);
      assert multiset(a) - multiset(b) == multiset{};
    }
    assert Weights(a) == Weights(b);
  }

  // -------------------------------------------------------------- the column

  /** `_signed`. */
  function Signed(value: nat): int { if value >= 0x8000_0000_0000_0000 then value - WORD else value }

  /** `stored & _MASK64`. */
  function Masked(stored: int): nat { stored % WORD }

  /** A key fits the signed column and is read back unchanged; what fits the column
      is the storing of its own mask. */
  lemma SignedRoundTrip(value: nat, stored: int)
    requires value < WORD && -0x8000_0000_0000_0000 <= stored < 0x8000_0000_0000_0000
    ensures -0x8000_0000_0000_0000 <= Signed(value) < 0x8000_0000_0000_0000
    ensures Masked(Signed(value)) == value && Signed(Masked(stored)) == stored
  {
    if stored < 0 {
      assert Masked(stored) == stored + WORD;
    }
    if value >= 0x8000_0000_0000_0000 {
      assert Masked(value - WORD) == value;
    }
  }

  // ------------------------------------------------------------------- table

  /** The stored JSON: what it parses to, or None when it does not parse. */
  datatype Entry = Entry(json: Option<string>, usedAt: int)

  datatype RowKey = RowKey(app: string, titleHash: string, stored: int)

  datatype CacheKey = CacheKey(app: string, titleHash: string, simhash: nat)

  type Table = map<RowKey, Entry>

  predicate SameWindow(row: RowKey, key: CacheKey) { row.app == key.app && row.titleHash == key.titleHash }

  predicate Near(row: RowKey, key: CacheKey) { Hamming(Masked(row.stored), key.simhash) <= MAX_HAMMING }

  /** The rows of the key's window, most recently used first; equal stamps in any order. */
  ghost predicate Ordered(table: Table, key: CacheKey, rows: seq<RowKey>) {
    && (forall row :: row in rows <==> row in table && SameWindow(row, key))
    && (forall i, j | 0 <= i < j < |rows| :: rows[i] != rows[j])
    && (forall i, j | 0 <= i < j < |rows| && rows[i] in table && rows[j] in table ::
          table[rows[i]].usedAt >= table[rows[j]].usedAt)
  }

  function Limited(rows: seq<RowKey>): seq<RowKey> { rows[..if |rows| < CANDIDATES then |rows| else CANDIDATES] }

  predicate Usable(table: Table, row: RowKey, key: CacheKey) {
    row in table && Near(row, key) && table[row].json.Some?
  }

  /** The first usable row. */
  function FirstUsable(table: Table, rows: seq<RowKey>, key: CacheKey): Option<RowKey> {
    if rows == [] then None
    else if Usable(table, rows[0], key) then Some(rows[0])
    else FirstUsable(table, rows[1..], key)
  }

  lemma {:induction false} FirstUsableIff(table: Table, rows: seq<RowKey>, key: CacheKey)
    ensures FirstUsable(table, rows, key).Some? <==> exists row | row in rows :: Usable(table, row, key)
    ensures
      var found := FirstUsable(table, rows, key);
      found.Some? ==> exists i | 0 <= i < |rows| ::
        rows[i] == found.value && Usable(table, rows[i], key) && forall j | 0 <= j < i :: !Usable(table, rows[j], key)
  {
    hide Usable;
    if rows != [] && !Usable(table, rows[0], key) {
      var rest := rows[1..];
      FirstUsableIff(table, rest, key);
      var found := FirstUsable(table, rest, key);
      if found.Some? {
        var i :| 0 <= i < |rest| && rest[i] == found.value && Usable(table, rest[i], key)
                 && forall j | 0 <= j < i :: !Usable(table, rest[j], key);
        forall j | 0 <= j < i + 1
          ensures !Usable(table, rows[j], key)
        {
          if j > 0 { assert rows[j] == rest[j - 1]; }
        }
        assert rows[i + 1] == found.value;
      } else {
        forall row | row in rows ensures !Usable(table, row, key) {
          assert row == rows[0] || row in rest;
        }
      }
    }
  }

  /** What a lookup answers and which row it touches. */
  function Answer(table: Table, rows: seq<RowKey>, key: CacheKey): Option<RowKey> {
    FirstUsable(table, Limited(rows), key)
  }

  /** A row is a candidate when fewer than 64 rows of its window are as recent. */
  lemma RecentIsCandidate(table: Table, rows: seq<RowKey>, key: CacheKey, row: RowKey)
    requires Ordered(table, key, rows) && row in table && row.app == key.app && row.titleHash == key.titleHash
    requires |set r | r in table && r.app == key.app && r.titleHash == key.titleHash && r != row && table[r].usedAt >= table[row].usedAt| < 64
    ensures row in Limited(rows)
  {
    var i :| 0 <= i < |rows| && rows[i] == row;
    if i >= CANDIDATES {
      var newer := set r | r in table && r.app == key.app && r.titleHash == key.titleHash && r != row && table[r].usedAt >= table[row].usedAt;
      var first := rows[..CANDIDATES];
      var taken := set r | r in first;
      DistinctSize(first);
      forall r | r in taken
        ensures r in newer
      {
        var j :| 0 <= j < |first| && first[j] == r;
        assert rows[j] == r && r in rows;
      }
      SubsetSize(taken, newer);
      assert false;
    }
  }

  // -------------------------------------------------------------- theorems

  /** A screen text close to an annotated one finds an annotation: `noisy` differs from
      `tokens` by edits that leave at most three bits unstable, and the row stored for
      `tokens` parses and is among the candidates. */
  lemma NoiseStillHits(table: Table, rows: seq<RowKey>, app: string, titleHash: string, tokens: seq<nat>, noisy: seq<nat>)
    requires Unstable(Weights(tokens), Edits(multiset(tokens), multiset(noisy))) <= 3
    requires Ordered(table, CacheKey(app, titleHash, Simhash(noisy)), rows)
    requires RowKey(app, titleHash, Signed(Simhash(tokens))) in Limited(rows)
    requires table[RowKey(app, titleHash, Signed(Simhash(tokens)))].json.Some?
    ensures Answer(table, rows, CacheKey(app, titleHash, Simhash(noisy))).Some?
  {
    hide Simhash, Weights, Hamming;
    var key := CacheKey(app, titleHash, Simhash(noisy));
    var row := RowKey(app, titleHash, Signed(Simhash(tokens)));
    NoiseMovesFewBits(tokens, noisy);
    SimhashBits(tokens, 0);
    SignedRoundTrip(Simhash(tokens), 0);
    FirstUsableIff(table, Limited(rows), key);
    assert Usable(table, row, key);
  }

  /** What a lookup finds: the same window, within three bits, parsed, the most recent such,
      and among the 64 rows looked at. */
  lemma HitIsNear(table: Table, rows: seq<RowKey>, key: CacheKey, row: RowKey)
    requires Ordered(table, key, rows) && Answer(table, rows, key) == Some(row)
    ensures row in table && row.app == key.app && row.titleHash == key.titleHash
    ensures Hamming(Masked(row.stored), key.simhash) <= 3 && table[row].json.Some?
    ensures exists i :: 0 <= i < |rows| && i < 64 && rows[i] == row
    ensures forall other | other in table && other.app == key.app && other.titleHash == key.titleHash
                           && Hamming(Masked(other.stored), key.simhash) <= 3 && table[other].json.Some? ::
              table[other].usedAt <= table[row].usedAt
  {
    MostRecentUsable(table, rows, key, row);
    forall other | other in table && other.app == key.app && other.titleHash == key.titleHash
                   && Hamming(Masked(other.stored), key.simhash) <= 3 && table[other].json.Some?
      ensures table[other].usedAt <= table[row].usedAt
    {
      assert SameWindow(other, key) && Near(other, key);
    }
  }

  lemma MostRecentUsable(table: Table, rows: seq<RowKey>, key: CacheKey, row: RowKey)
    requires Ordered(table, key, rows) && Answer(table, rows, key) == Some(row)
    ensures row in table && SameWindow(row, key) && Near(row, key) && table[row].json.Some?
    ensures exists i :: 0 <= i < |rows| && i < 64 && rows[i] == row
    ensures forall other | other in table && SameWindow(other, key) && Near(other, key) && table[other].json.Some? ::
              table[other].usedAt <= table[row].usedAt
  {
    hide Near, SameWindow, Ordered;
    FirstUsableIff(table, Limited(rows), key);
    var i :| 0 <= i < |Limited(rows)| && Limited(rows)[i] == row
             && forall j | 0 <= j < i :: !Usable(table, Limited(rows)[j], key);
    assert rows[i] == row;
    assert forall k | 0 <= k < i :: Limited(rows)[k] == rows[k] && !Usable(table, rows[k], key);
    InOrder(table, key, rows, i, i);
    forall other | other in table && SameWindow(other, key) && Near(other, key) && table[other].json.Some?
      ensures table[other].usedAt <= table[row].usedAt
    {
      var j := PlaceOf(table, key, rows, other);
      InOrder(table, key, rows, i, j);
    }
  }

  lemma PlaceOf(table: Table, key: CacheKey, rows: seq<RowKey>, row: RowKey) returns (i: nat)
    requires Ordered(table, key, rows) && row in table && SameWindow(row, key)
    ensures i < |rows| && rows[i] == row
  {
    i :| 0 <= i < |rows| && rows[i] == row;
  }

  lemma InOrder(table: Table, key: CacheKey, rows: seq<RowKey>, i: nat, j: nat)
    requires Ordered(table, key, rows) && i < |rows| && j < |rows|
    ensures rows[i] in table && SameWindow(rows[i], key) && rows[j] in table
    ensures i <= j ==> table[rows[i]].usedAt >= table[rows[j]].usedAt
  {
    assert rows[i] in rows && rows[j] in rows;
  }

  function Stored(table: Table, key: CacheKey, json: string, now: int): Table {
    table[RowKey(key.app, key.titleHash, Signed(key.simhash)) := Entry(Some(json), now)]
  }

  lemma FirstIsLatest(table: Table, key: CacheKey, rows: seq<RowKey>, row: RowKey)
    requires Ordered(table, key, rows) && row in table && SameWindow(row, key)
    ensures rows != [] && rows[0] in table && SameWindow(rows[0], key)
    ensures table[rows[0]].usedAt >= table[row].usedAt
  {
    assert row in rows && rows[0] in rows;
  }

  /** A lookup after a store, by a near key and with the store's stamp the latest of
      the window, answers what was stored. */
  lemma StoredIsFound(table: Table, key: CacheKey, json: string, now: int, near: CacheKey, rows: seq<RowKey>)
    requires key.simhash < WORD && near.app == key.app && near.titleHash == key.titleHash
    requires Hamming(key.simhash, near.simhash) <= 3
    requires forall row | row in table && row.app == key.app && row.titleHash == key.titleHash :: table[row].usedAt < now
    requires Ordered(Stored(table, key, json, now), near, rows)
    ensures Answer(Stored(table, key, json, now), rows, near)
         == Some(RowKey(key.app, key.titleHash, Signed(key.simhash)))
  {
    hide Hamming;
    var row := RowKey(key.app, key.titleHash, Signed(key.simhash));
    var after := Stored(table, key, json, now);
    SignedRoundTrip(key.simhash, 0);
    FirstIsLatest(after, near, rows, row);
    assert Limited(rows)[0] == row;
    assert Usable(after, row, near);
  }

  // --------------------------------------------------------- the operations

  lemma {:induction false} WeightSnoc(tokens: seq<nat>, token: nat, bit: nat)
    ensures Weight(tokens + [token], bit) == Weight(tokens, bit) + Vote(token, bit)
  {
    WeightOut(tokens + [token], |tokens|, bit);
    assert (tokens + [token])[..|tokens|] + [] == tokens;
  }

  /** One token's votes. */
  method AddVotes(weights: array<int>, token: nat)
    requires weights.Length == BITS
    modifies weights
    ensures forall bit | 0 <= bit < BITS :: weights[bit] == old(weights[bit]) + Vote(token, bit)
  {
    hide Vote;
    for bit := 0 to BITS
      invariant forall b | 0 <= b < bit :: weights[b] == old(weights[b]) + Vote(token, b)
      invariant forall b | bit <= b < BITS :: weights[b] == old(weights[b])
    {
      VoteOfBit(token, bit);
      weights[bit] := weights[bit] + if Bit(token, bit) then 1 else -1;
    }
  }

  lemma VoteOfBit(token: nat, bit: nat)
    ensures Vote(token, bit) == if Bit(token, bit) then 1 else -1
  {
  }

  method Simhash64(tokens: seq<nat>) returns (key: nat)
    ensures key == Simhash(tokens)
  {
    hide Weight, Vote, Pack;
    var weights := new int[BITS](_ => 0);
    NoVotes();
    for i := 0 to |tokens|
      invariant forall bit | 0 <= bit < BITS :: weights[bit] == Weight(tokens[..i], bit)
    {
      AddVotes(weights, tokens[i]);
      assert tokens[..i + 1] == tokens[..i] + [tokens[i]];
      forall bit | 0 <= bit < BITS
        ensures Weight(tokens[..i + 1], bit) == Weight(tokens[..i], bit) + Vote(tokens[i], bit)
      {
        WeightSnoc(tokens[..i], tokens[i], bit);
      }
    }
    assert tokens[..|tokens|] == tokens;
    assert weights[..] == Weights(tokens);
    key := SumBits(weights[..]);
  }

  lemma NoVotes()
    ensures forall bit: nat :: Weight([], bit) == 0
  {
  }

  method SumBits(weights: seq<int>) returns (sum: nat)
    ensures sum == Pack(weights)
  {
    hide Pack;
    sum := 0;
    var power := 1;
    assert weights[0..] == weights;
    for bit := 0 to |weights|
      invariant power > 0 && sum + power * Pack(weights[bit..]) == Pack(weights)
    {
      PackStep(weights, bit, power);
      if weights[bit] > 0 {
        sum := sum + power;
      }
      power := 2 * power;
    }
    PackEmpty(weights[|weights|..]);
  }

  lemma PackStep(weights: seq<int>, bit: nat, power: nat)
    requires bit < |weights|
    ensures power * Pack(weights[bit..]) ==
            (if weights[bit] > 0 then power else 0) + (2 * power) * Pack(weights[bit + 1..])
  {
    var rest := Pack(weights[bit + 1..]);
    assert weights[bit..][1..] == weights[bit + 1..];
    assert power * (1 + 2 * rest) == power + (2 * power) * rest;
    assert power * (2 * rest) == (2 * power) * rest;
  }

  lemma PackEmpty(weights: seq<int>)
    requires weights == []
    ensures Pack(weights) == 0
  {
  }

  class Cache {
    var table: Table

    constructor ()
      ensures table == map[]
    {
      table := map[];
    }

    /** `lookup`: `rows` is the order the database answers in, `readable` and `writable`
        say whether its query and its update go through. */
    method Lookup(key: CacheKey, rows: seq<RowKey>, now: int, readable: bool, writable: bool)
      returns (found: Option<string>)
      requires Ordered(table, key, rows)
      modifies this
      ensures
        var row := if readable && writable then Answer(old(table), rows, key) else None;
        if row.None? then found.None? && table == old(table)
        else
          && row.value in old(table) && found == old(table)[row.value].json && found.Some?
          && table == old(table)[row.value := Entry(found, now)]
    {
      hide Near, Ordered;
      if !readable {
        return None;
      }
      var limited := Limited(rows);
      assert limited[0..] == limited;
      InTable(table, key, rows);
      for i := 0 to |limited|
        invariant table == old(table)
        invariant FirstUsable(table, limited[i..], key) == FirstUsable(table, limited, key)
      {
        var row := limited[i];
        assert limited[i..][1..] == limited[i + 1..];
        if !Near(row, key) {
          continue;
        }
        found := table[row].json;
        if found.None? {
          continue;
        }
        if !writable {
          return None;
        }
        table := table[row := Entry(found, now)];
        return;
      }
      assert limited[|limited|..] == [];
      found := None;
    }

    /** `store`: `writable` says whether the insert goes through. */
    method Store(key: CacheKey, json: string, now: int, writable: bool)
      modifies this
      ensures table == if writable then Stored(old(table), key, json, now) else old(table)
    {
      if writable {
        table := table[RowKey(key.app, key.titleHash, Signed(key.simhash)) := Entry(Some(json), now)];
      }
    }
  }

  lemma InTable(table: Table, key: CacheKey, rows: seq<RowKey>)
    requires Ordered(table, key, rows)
    ensures forall i | 0 <= i < |Limited(rows)| :: Limited(rows)[i] in table
  {
    forall i | 0 <= i < |Limited(rows)|
      ensures Limited(rows)[i] in table
    {
      assert Limited(rows)[i] == rows[i] && rows[i] in rows;
    }
  }
}
