/** A concrete file under two wrapper levels: it resolves, every peer serves it, and it does not download. */
module DeepNest {
  import opened Bytes
  import opened Primitives
  import opened Retrieval
  import opened Download
  import opened VerifiedDownload

  function Name(n: byte): Address {
    seq(32, _ => n)
  }

  /** One-byte chunks, named after their byte. */
  function Hash(b: Bytes): Address {
    if |b| == 1 then Name(b[0]) else Name(255)
  }

  const OUTER := DataMap([Name(1)], true, [])
  const INNER := DataMap([Name(2)], true, [])
  const ROOT := DataMap([Name(3)], false, [])

  function ParseMap(b: Bytes): Option<DataMap> {
    if b == [0] then Some(OUTER) else None
  }

  function ParseInner(b: Bytes): Option<DataMap> {
    if b == [10] then Some(INNER) else if b == [20] then Some(ROOT) else None
  }

  function Decrypt(m: DataMap, chunks: seq<Bytes>): Option<Bytes> {
    if m == OUTER then Some([10]) else if m == INNER then Some([20]) else Some([42])
  }

  const CRYPTO := Crypto(Hash, Hash, (key, message, signature) => false, (ek, ct) => None)

  const LIB := Lib(CRYPTO, ParseMap, ParseInner, (m, chunks) => Decrypt(m, chunks), 100)

  const STORE: Store := map[Name(0) := [0], Name(1) := [1], Name(2) := [2], Name(3) := [3]]

  /** Every listed peer is honest, and there is always one. */
  function Honest(a: Address): Lookup {
    if a in STORE then Listed([Replied(Success(a, STORE[a]))]) else Listed([])
  }

  const WORLD := World(Honest(Name(0)), (round: nat, i: nat, a: Address) => Honest(a))

  lemma Names()
    ensures forall m: byte, n: byte :: Name(m) == Name(n) ==> m == n
  {
    forall m: byte, n: byte | Name(m) == Name(n) ensures m == n {
      assert Name(m)[0] == m;
    }
  }

  lemma Maps()
    ensures OUTER != INNER && OUTER != ROOT && INNER != ROOT
  {
    Names();
    assert OUTER.infos[0] == Name(1) && INNER.infos[0] == Name(2);
  }

  lemma Gathered(a: Address)
    requires a in STORE
    ensures Gather(STORE, [a]) == Some([STORE[a]])
  {
    assert [a][1..] == [];
    assert Gather(STORE, [a][1..]) == Some([]);
    assert [STORE[a]] + [] == [STORE[a]];
  }

  lemma Walk()
    ensures GetRoot(LIB, OUTER, STORE, 100) == Some(ROOT)
    ensures INNER in Wrappers(LIB, OUTER, STORE, 100)
  {
    Names();
    Maps();
    Gathered(Name(1));
    Gathered(Name(2));
    assert Unwrap(LIB, OUTER, STORE) == Some(INNER);
    assert Unwrap(LIB, INNER, STORE) == Some(ROOT);
    assert GetRoot(LIB, ROOT, STORE, 98) == Some(ROOT);
    assert GetRoot(LIB, INNER, STORE, 99) == Some(ROOT);
    assert Wrappers(LIB, INNER, STORE, 99)[0] == INNER;
    assert Wrappers(LIB, OUTER, STORE, 100)[1] == INNER;
  }

  lemma EveryPeerServes(contents: iset<Bytes>)
    requires contents == iset{[0], [1], [2], [3]}
    ensures Network(LIB, WORLD, STORE, Name(0), contents)
  {
    Names();
    assert CollisionFree(LIB, contents);
    forall a | a in STORE ensures ServedBy(Honest(a), a, STORE[a]) {
      assert Honest(a).attempts[0] == Replied(Success(a, STORE[a]));
    }
  }

  lemma ItResolves()
    ensures STORE[Name(0)] == [0] && Resolve(LIB, STORE, Name(0)) == Some([42])
  {
    Names();
    Maps();
    Walk();
    Gathered(Name(3));
  }

  /** README.md:25-26 has wrapper levels resolved round by round. The walk runs once, on the first level only. */
  lemma TwoLevelsDoNotDownload()
    ensures Resolve(LIB, STORE, Name(0)) == Some([42])
    ensures DownloadOutcome(LIB, WORLD, Name(0)).result == Err(RetrievalFailed(RootUnresolved))
  {
    var contents := iset{[0], [1], [2], [3]};
    ItResolves();
    EveryPeerServes(contents);
    DownloadSucceedsIff(LIB, WORLD, STORE, Name(0), contents);
    Walk();
    Names();
    assert Name(2) in INNER.infos && Name(2) !in OUTER.infos;
  }
}
