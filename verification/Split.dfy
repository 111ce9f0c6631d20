/** The single-node payment split: the median of seven quotes is paid three times its price. */
module Split {
  import opened Bytes
  import opened U256
  import opened Payment
  import opened SignedPayload

  /** One `(rewardsAddress, amount, quoteHash)` entry of `payForQuotes`. */
  datatype DataPayment = DataPayment(rewards: Bytes20, amount: Bytes32, quoteHash: Bytes32)

  datatype SplitError = WrongQuoteCount(got: nat)

  const CLOSE_GROUP_SIZE: nat := 7

  function Prices(quotes: seq<Quote>): (ps: seq<nat>)
    ensures |ps| == |quotes|
  {
    seq(|quotes|, i requires 0 <= i < |quotes| => Value(quotes[i].price))
  }

  // ----- ranking -----

  /** The order a stable sort by price gives the indices. */
  predicate Before(ps: seq<nat>, i: nat, j: nat)
    requires i < |ps| && j < |ps|
  {
    ps[i] < ps[j] || (ps[i] == ps[j] && i < j)
  }

  /** `r` lists all indices of `ps` in that order. */
  predicate IsRanking(ps: seq<nat>, r: seq<nat>) {
    && |r| == |ps|
    && (forall k :: 0 <= k < |r| ==> r[k] < |ps|)
    && (forall j, k :: 0 <= j < k < |r| ==> Before(ps, r[j], r[k]))
  }

  ghost function Earlier(ps: seq<nat>, j: nat): set<nat>
    requires j < |ps|
  {
    set i: nat | i < |ps| && Before(ps, i, j)
  }

  /** Exactly three of the seven come before `m`. */
  ghost predicate IsMedian(ps: seq<nat>, m: nat) {
    |ps| == CLOSE_GROUP_SIZE && m < |ps| && |Earlier(ps, m)| == 3
  }

  lemma PriceOrder(quotes: seq<Quote>, i: nat, j: nat)
    requires i < |quotes| && j < |quotes|
    ensures U256Cmp(quotes[i].price, quotes[j].price) == Greater <==> Prices(quotes)[i] > Prices(quotes)[j]
  {
    U256CmpIsNumeric(quotes[i].price, quotes[j].price);
  }

  /** The source's stable sort of `0..n`, as an in-place insertion sort. */
  method RankByPrice(quotes: seq<Quote>) returns (ranked: seq<nat>)
    ensures IsRanking(Prices(quotes), ranked)
  {
    var n := |quotes|;
    var a := new nat[n](i => i);
    var k := 0;
    while k < n
      invariant 0 <= k <= n
      invariant forall x :: 0 <= x < k ==> a[x] < k
      invariant forall x :: k <= x < n ==> a[x] == x
      invariant forall x, y :: 0 <= x < y < k ==> Before(Prices(quotes), a[x], a[y])
    {
      SinkNext(quotes, a, k);
      k := k + 1;
    }
    ranked := a[..];
  }

  /** One insertion: index `k` moves left past every dearer one. */
  method SinkNext(quotes: seq<Quote>, a: array<nat>, k: nat)
    requires k < a.Length == |quotes| && a[k] == k
    requires forall x :: 0 <= x < k ==> a[x] < k
    requires forall x, y :: 0 <= x < y < k ==> Before(Prices(quotes), a[x], a[y])
    modifies a
    ensures forall x :: 0 <= x <= k ==> a[x] <= k
    ensures forall x :: k < x < a.Length ==> a[x] == old(a[x])
    ensures forall x, y :: 0 <= x < y <= k ==> Before(Prices(quotes), a[x], a[y])
  {
    ghost var ps := Prices(quotes);
    var j := k;
    while j > 0 && U256Cmp(quotes[a[j - 1]].price, quotes[k].price) == Greater
      invariant 0 <= j <= k && a[j] == k
      invariant forall x :: 0 <= x <= k && x != j ==> a[x] < k
      invariant forall x :: k < x < a.Length ==> a[x] == old(a[x])
      invariant forall x, y :: 0 <= x < y <= k && x != j && y != j ==> Before(ps, a[x], a[y])
      invariant forall y :: j < y <= k ==> Before(ps, k, a[y])
    {
      PriceOrder(quotes, a[j - 1], k);
      a[j - 1], a[j] := a[j], a[j - 1];
      j := j - 1;
    }
    if j > 0 {
      PriceOrder(quotes, a[j - 1], k);
    }
  }

  ghost function Elements(s: seq<nat>): set<nat> {
    set x | x in s
  }

  ghost function Below(n: nat): (r: set<nat>)
    ensures forall i :: i in r <==> 0 <= i < n
  {
    if n == 0 then {} else Below(n - 1) + {n - 1}
  }

  lemma {:induction false} BelowSize(n: nat)
    ensures |Below(n)| == n
  {
    if n > 0 {
      BelowSize(n - 1);
    }
  }

  lemma {:induction false} DistinctSize(s: seq<nat>)
    requires forall i, j :: 0 <= i < j < |s| ==> s[i] != s[j]
    ensures |Elements(s)| == |s|
  {
    if s != [] {
      var front, last := s[..|s| - 1], s[|s| - 1];
      DistinctSize(front);
      assert Elements(s) == Elements(front) + {last};
    }
  }

  lemma SameSizeSubset(a: set<nat>, b: set<nat>)
    requires a <= b && |a| == |b|
    ensures a == b
  {
    assert |b - a| == |b| - |a|;
    assert b == a + (b - a);
  }

  lemma RankingCoversAll(ps: seq<nat>, r: seq<nat>)
    requires IsRanking(ps, r)
    ensures Elements(r) == Below(|ps|)
  {
    DistinctSize(r);
    BelowSize(|ps|);
    SameSizeSubset(Elements(r), Below(|ps|));
  }

  /** Position in the ranking is the number of indices that come before. */
  lemma RankIsPosition(ps: seq<nat>, r: seq<nat>, k: nat)
    requires IsRanking(ps, r) && k < |r|
    ensures |Earlier(ps, r[k])| == k
  {
    RankingCoversAll(ps, r);
    forall i | i in Earlier(ps, r[k]) ensures i in Elements(r[..k]) {
      assert i in Below(|ps|);
      var x :| 0 <= x < |r| && r[x] == i;
      assert x < k;
      assert r[..k][x] == i;
    }
    assert Earlier(ps, r[k]) == Elements(r[..k]);
    DistinctSize(r[..k]);
  }

  /** At most one index has a given number of predecessors, so the median is unique. */
  lemma MedianUnique(ps: seq<nat>, m: nat, n: nat)
    requires IsMedian(ps, m) && IsMedian(ps, n)
    ensures m == n
  {
    if m != n {
      var lo, hi := if Before(ps, m, n) then m else n, if Before(ps, m, n) then n else m;
      assert lo !in Earlier(ps, lo) && Earlier(ps, lo) + {lo} <= Earlier(ps, hi);
      CardinalityMonotone(Earlier(ps, lo) + {lo}, Earlier(ps, hi));
    }
  }

  lemma CardinalityMonotone<T>(a: set<T>, b: set<T>)
    requires a <= b
    ensures |a| <= |b|
  {
    assert b == a + (b - a);
  }

  lemma DifferenceSize<T>(a: set<T>, b: set<T>)
    requires a <= b
    ensures |b - a| == |b| - |a|
  {
    assert b == a + (b - a);
  }

  lemma EarlierAreOthers(ps: seq<nat>, m: nat)
    requires m < |ps|
    ensures m !in Earlier(ps, m) && Earlier(ps, m) + {m} <= Below(|ps|)
  {
  }

  /** Exactly three of the seven come after the median, as three come before. */
  lemma LaterSize(ps: seq<nat>, m: nat)
    requires IsMedian(ps, m)
    ensures |Below(7) - Earlier(ps, m) - {m}| == 3
  {
    EarlierAreOthers(ps, m);
    BelowSize(7);
    DifferenceSize(Earlier(ps, m) + {m}, Below(7));
    assert Below(7) - Earlier(ps, m) - {m} == Below(7) - (Earlier(ps, m) + {m});
  }

  /** Three quotes cannot move the median outside the price range of the other four, whichever they are. */
  lemma MedianIsRobust(ps: seq<nat>, m: nat, four: set<nat>)
    requires IsMedian(ps, m) && |four| == 4 && four <= Below(7)
    ensures exists lo, hi :: lo in four && hi in four && ps[lo] <= ps[m] <= ps[hi]
  {
    var hi := OutsideSmaller(four, Earlier(ps, m));
    assert ps[m] <= ps[hi];
    LaterSize(ps, m);
    var lo := OutsideSmaller(four, Below(7) - Earlier(ps, m) - {m});
    assert ps[lo] <= ps[m];
  }

  lemma OutsideSmaller<T>(big: set<T>, small: set<T>) returns (x: T)
    requires |small| < |big|
    ensures x in big && x !in small
  {
    if big <= small { CardinalityMonotone(big, small); }
    x :| x in big && x !in small;
  }

  // ----- the median price does not depend on the order of the quotes -----

  function CountBelow(s: seq<nat>, limit: nat): nat {
    if s == [] then 0 else CountBelow(s[..|s| - 1], limit) + if s[|s| - 1] < limit then 1 else 0
  }

  lemma {:induction false} CountBelowIsSize(s: seq<nat>, limit: nat)
    ensures CountBelow(s, limit) == |IndicesBelow(s, limit)|
  {
    if s != [] {
      CountBelowIsSize(s[..|s| - 1], limit);
      IndicesBelowSplit(s, limit);
    }
  }

  ghost function IndicesBelow(s: seq<nat>, limit: nat): set<nat> {
    set i: nat | i < |s| && s[i] < limit
  }

  lemma IndicesBelowSplit(s: seq<nat>, limit: nat)
    requires s != []
    ensures |IndicesBelow(s, limit)| == |IndicesBelow(s[..|s| - 1], limit)| + if s[|s| - 1] < limit then 1 else 0
  {
    var front, last := IndicesBelow(s[..|s| - 1], limit), |s| - 1;
    assert last !in front;
    if s[last] < limit {
      assert IndicesBelow(s, limit) == front + {last};
    } else {
      assert IndicesBelow(s, limit) == front;
    }
  }

  lemma {:induction false} CountBelowRemove(s: seq<nat>, j: nat, limit: nat)
    requires j < |s|
    ensures CountBelow(s, limit) == CountBelow(s[..j] + s[j + 1..], limit) + if s[j] < limit then 1 else 0
  {
    var front, last := s[..|s| - 1], s[|s| - 1];
    if j == |s| - 1 {
      assert s[..j] + s[j + 1..] == front;
    } else {
      CountBelowRemove(front, j, limit);
      var rest := s[..j] + s[j + 1..];
      assert rest[..|rest| - 1] == front[..j] + front[j + 1..];
    }
  }

  /** Two arrangements of the same items stay so when the first one's last item is removed from both. */
  lemma RemoveLast<T>(s: seq<T>, t: seq<T>) returns (j: nat)
    requires s != [] && multiset(s) == multiset(t)
    ensures j < |t| && t[j] == s[|s| - 1]
    ensures multiset(s[..|s| - 1]) == multiset(t[..j] + t[j + 1..])
  {
    var front, last := s[..|s| - 1], s[|s| - 1];
    assert s == front + [last];
    assert last in multiset(t);
    j :| 0 <= j < |t| && t[j] == last;
    var before, after := t[..j], t[j + 1..];
    assert t == before + [last] + after;
    assert multiset(front) == multiset(s) - multiset{last};
    assert multiset(before + after) == multiset(t) - multiset{last};
  }

  lemma {:induction false} CountBelowOfPermutation(s: seq<nat>, t: seq<nat>, limit: nat)
    requires multiset(s) == multiset(t)
    ensures CountBelow(s, limit) == CountBelow(t, limit)
  {
    if s == [] {
      assert |t| == |multiset(t)| == 0;
    } else {
      var j := RemoveLast(s, t);
      CountBelowOfPermutation(s[..|s| - 1], t[..j] + t[j + 1..], limit);
      CountBelowRemove(t, j, limit);
    }
  }

  lemma MedianCounts(ps: seq<nat>, m: nat)
    requires IsMedian(ps, m)
    ensures CountBelow(ps, ps[m]) <= 3 && CountBelow(ps, ps[m] + 1) >= 4
  {
    CountBelowIsSize(ps, ps[m]);
    CountBelowIsSize(ps, ps[m] + 1);
    CardinalityMonotone((set i: nat | i < |ps| && ps[i] < ps[m]), Earlier(ps, m));
    assert |Earlier(ps, m) + {m}| == 4;
    CardinalityMonotone(Earlier(ps, m) + {m}, set i: nat | i < |ps| && ps[i] < ps[m] + 1);
  }

  lemma {:induction false} CountBelowMonotone(s: seq<nat>, a: nat, b: nat)
    requires a <= b
    ensures CountBelow(s, a) <= CountBelow(s, b)
  {
    if s != [] {
      CountBelowMonotone(s[..|s| - 1], a, b);
    }
  }

  lemma MedianPriceIgnoresOrder(ps: seq<nat>, m: nat, qs: seq<nat>, n: nat)
    requires IsMedian(ps, m) && IsMedian(qs, n) && multiset(ps) == multiset(qs)
    ensures ps[m] == qs[n]
  {
    MedianCounts(ps, m);
    MedianCounts(qs, n);
    if ps[m] < qs[n] {
      CountBelowMonotone(qs, ps[m] + 1, qs[n]);
      CountBelowOfPermutation(ps, qs, ps[m] + 1);
    } else if qs[n] < ps[m] {
      CountBelowMonotone(ps, qs[n] + 1, ps[m]);
      CountBelowOfPermutation(ps, qs, qs[n] + 1);
    }
  }

  // ----- the split -----

  /** What quote `i` is paid when index `m` is the median. */
  function PaymentFor(quotes: seq<Quote>, m: nat, keccak: Bytes -> Bytes32, i: nat): DataPayment
    requires i < |quotes|
  {
    DataPayment(
      quotes[i].rewardsAddress,
      Word(if i == m then 3 * Value(quotes[i].price) else 0),
      keccak(HashPreimage(quotes[i])))
  }

  function Payments(quotes: seq<Quote>, m: nat, keccak: Bytes -> Bytes32): (r: seq<DataPayment>)
    ensures |r| == |quotes|
  {
    seq(|quotes|, i requires 0 <= i < |quotes| => PaymentFor(quotes, m, keccak, i))
  }

  method PaymentSplit(quotes: seq<Quote>, keccak: Bytes -> Bytes32) returns (r: Result<seq<DataPayment>, SplitError>)
    ensures |quotes| != CLOSE_GROUP_SIZE ==> r == Err(WrongQuoteCount(|quotes|))
    ensures |quotes| == CLOSE_GROUP_SIZE ==>
      exists m :: IsMedian(Prices(quotes), m) && r == Ok(Payments(quotes, m, keccak))
  {
    if |quotes| != CLOSE_GROUP_SIZE {
      return Err(WrongQuoteCount(|quotes|));
    }
    var ranked := RankByPrice(quotes);
    var m := ranked[3];
    RankIsPosition(Prices(quotes), ranked, 3);
    var payments := PayMedian(quotes, m, keccak);
    r := Ok(payments);
  }

  method PayMedian(quotes: seq<Quote>, m: nat, keccak: Bytes -> Bytes32) returns (payments: seq<DataPayment>)
    requires m < |quotes|
    ensures payments == Payments(quotes, m, keccak)
  {
    var triple := U256MulU64(quotes[m].price, 3);
    SameWord(triple, 3 * Value(quotes[m].price));
    ZeroWord();
    payments := [];
    for i := 0 to |quotes|
      invariant payments == Payments(quotes, m, keccak)[..i]
    {
      var hashed := QuoteHashPreimage(quotes[i]);
      var payment := DataPayment(quotes[i].rewardsAddress, if i == m then triple else Zeros(32), keccak(hashed));
      assert payment == PaymentFor(quotes, m, keccak, i);
      payments := payments + [payment];
    }
  }

  lemma SameWord(a: Bytes32, n: nat)
    requires Value(a) == n % TWO_256
    ensures a == Word(n)
  {
    BigEndianInjective(a, Word(n));
  }

  lemma ZeroWord()
    ensures Zeros(32) == Word(0)
  {
    ZerosAreZero(32);
    SameWord(Zeros(32), 0);
  }

  lemma {:induction false} ZerosAreZero(n: nat)
    ensures BigEndian(Zeros(n)) == 0
  {
    if n > 0 {
      assert Zeros(n)[1..] == Zeros(n - 1);
      ZerosAreZero(n - 1);
    }
  }

  function Sum(payments: seq<DataPayment>): nat {
    if payments == [] then 0 else Sum(payments[..|payments| - 1]) + Value(payments[|payments| - 1].amount)
  }

  lemma ModUnique(x: nat, q: nat, r: nat, n: nat)
    requires r < n && x == n * q + r
    ensures x % n == r
  {
    var d := x / n;
    assert x == n * d + x % n;
    if q < d {
      NextMultiple(q, d, n);
    } else if d < q {
      NextMultiple(d, q, n);
    }
  }

  lemma NextMultiple(a: nat, b: nat, n: nat)
    requires a < b
    ensures n * a + n <= n * b
  {
    MulAtMost(a + 1, b, n);
    assert (a + 1) * n == n * a + n;
  }

  lemma ModAdd(a: nat, b: nat, n: nat)
    requires n > 0
    ensures (a % n + b) % n == (a + b) % n
  {
    var x := a % n + b;
    assert n * (a / n + x / n) == n * (a / n) + n * (x / n);
    ModUnique(a + b, a / n + x / n, x % n, n);
  }

  /** `total` is the sum of the first `n` amounts modulo 2^256. */
  ghost predicate Totals(payments: seq<DataPayment>, n: nat, total: Bytes32)
    requires n <= |payments|
  {
    Value(total) == Sum(payments[..n]) % TWO_256
  }

  lemma TotalOfNone(payments: seq<DataPayment>)
    ensures Totals(payments, 0, Zeros(32))
  {
    ZerosAreZero(32);
  }

  lemma SumOfFirst(payments: seq<DataPayment>, n: nat)
    requires n < |payments|
    ensures Sum(payments[..n + 1]) == Sum(payments[..n]) + Value(payments[n].amount)
  {
    assert payments[..n + 1][..n] == payments[..n];
  }

  lemma TotalOfNext(payments: seq<DataPayment>, n: nat, before: Bytes32, after: Bytes32)
    requires n < |payments| && Totals(payments, n, before)
    requires Value(after) == (Value(before) + Value(payments[n].amount)) % TWO_256
    ensures Totals(payments, n + 1, after)
  {
    SumOfFirst(payments, n);
    ModAdd(Sum(payments[..n]), Value(payments[n].amount), TWO_256);
  }

  lemma TotalOfAll(payments: seq<DataPayment>, total: Bytes32)
    requires Totals(payments, |payments|, total)
    ensures Value(total) == Sum(payments) % TWO_256
  {
    assert payments[..|payments|] == payments;
  }

  /** One step of the fold. */
  method AddNextTotal(payments: seq<DataPayment>, i: nat, total: Bytes32) returns (next: Bytes32)
    requires i < |payments| && Totals(payments, i, total)
    ensures Totals(payments, i + 1, next)
  {
    next := U256Add(total, payments[i].amount);
    TotalOfNext(payments, i, total, next);
  }

  method TotalAmount(payments: seq<DataPayment>) returns (total: Bytes32)
    ensures Value(total) == Sum(payments) % TWO_256
  {
    total := Zeros(32);
    TotalOfNone(payments);
    for i := 0 to |payments|
      invariant Totals(payments, i, total)
    {
      total := AddNextTotal(payments, i, total);
    }
    TotalOfAll(payments, total);
  }

  /** Only the median is paid. */
  lemma {:induction false} SumOfSplit(quotes: seq<Quote>, m: nat, keccak: Bytes -> Bytes32, n: nat)
    requires m < |quotes| && n <= |quotes|
    ensures Sum(Payments(quotes, m, keccak)[..n]) == if m < n then Value(Word(3 * Value(quotes[m].price))) else 0
  {
    if n > 0 {
      SumOfSplit(quotes, m, keccak, n - 1);
      SumOfFirst(Payments(quotes, m, keccak), n - 1);
      AmountAt(quotes, m, keccak, n - 1);
    }
  }

  lemma AmountAt(quotes: seq<Quote>, m: nat, keccak: Bytes -> Bytes32, i: nat)
    requires m < |quotes| && i < |quotes|
    ensures Value(Payments(quotes, m, keccak)[i].amount) == if i
      == m then Value(Word(3 * Value(quotes[m].price))) else 0
  {
    WordOfZero();
    assert Payments(quotes, m, keccak)[i] == PaymentFor(quotes, m, keccak, i);
  }

  lemma WordOfZero()
    ensures Value(Word(0)) == 0
  {
    ModUnique(0, 0, 0, TWO_256);
  }

  lemma TripleWraps(p: nat, n: nat)
    requires p < n
    ensures 3 * p % n == 3 * p <==> p <= (n - 1) / 3
  {
    if 3 * p < n {
      ModUnique(3 * p, 0, 3 * p, n);
    }
  }

  /** The approved total is three times the median price exactly when that does not wrap. */
  lemma TotalIsTripleMedian(quotes: seq<Quote>, m: nat, keccak: Bytes -> Bytes32, total: Bytes32)
    requires IsMedian(Prices(quotes), m)
    requires Value(total) == Sum(Payments(quotes, m, keccak)) % TWO_256
    ensures Value(total) == 3 * Value(quotes[m].price) % TWO_256
    ensures Value(total) == 3 * Value(quotes[m].price) <==> Value(quotes[m].price) <= (TWO_256 - 1) / 3
  {
    var price := Value(quotes[m].price);
    var paid := Value(Word(3 * price));
    SumOfSplit(quotes, m, keccak, |quotes|);
    assert Payments(quotes, m, keccak)[..|quotes|] == Payments(quotes, m, keccak);
    ValueBound(Word(3 * price));
    ModUnique(paid, 0, paid, TWO_256);
    ValueBound(quotes[m].price);
    TripleWraps(price, TWO_256);
  }

  /** Reordering the quotes changes neither the median price nor the total. */
  lemma TotalIgnoresOrder(quotes: seq<Quote>, m: nat, shuffled: seq<Quote>, n: nat, keccak: Bytes -> Bytes32,
                          total: Bytes32, shuffledTotal: Bytes32)
    requires IsMedian(Prices(quotes), m) && IsMedian(Prices(shuffled), n) && multiset(quotes) == multiset(shuffled)
    requires Value(total) == Sum(Payments(quotes, m, keccak)) % TWO_256
    requires Value(shuffledTotal) == Sum(Payments(shuffled, n, keccak)) % TWO_256
    ensures quotes[m].price == shuffled[n].price && total == shuffledTotal
  {
    PricesOfPermutation(quotes, shuffled);
    MedianPriceIgnoresOrder(Prices(quotes), m, Prices(shuffled), n);
    TotalIsTripleMedian(quotes, m, keccak, total);
    TotalIsTripleMedian(shuffled, n, keccak, shuffledTotal);
    BigEndianInjective(total, shuffledTotal);
    BigEndianInjective(quotes[m].price, shuffled[n].price);
  }

  lemma {:induction false} PricesOfPermutation(quotes: seq<Quote>, shuffled: seq<Quote>)
    requires multiset(quotes) == multiset(shuffled)
    ensures multiset(Prices(quotes)) == multiset(Prices(shuffled))
  {
    if quotes == [] {
      assert |shuffled| == |multiset(shuffled)| == 0;
    } else {
      var j := RemoveLast(quotes, shuffled);
      var last := Value(shuffled[j].price);
      var before, after := shuffled[..j], shuffled[j + 1..];
      PricesOfPermutation(quotes[..|quotes| - 1], before + after);
      assert Prices(quotes) == Prices(quotes[..|quotes| - 1]) + [last];
      assert Prices(shuffled) == Prices(before) + [last] + Prices(after);
      assert Prices(before + after) == Prices(before) + Prices(after);
    }
  }
}
