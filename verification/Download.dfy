/** Downloading from peers that may fail, refuse or lie. */
module Download {
  import opened Bytes
  import opened Retrieval

  // ----- what peers may answer -----

  datatype GetResponse =
    | Success(address: Address, content: Bytes)
    | NotFound
    | NodeError
    | Unexpected

  /** One listed peer: no connection, no usable response, or a decoded response. */
  datatype Attempt = NoConnection | NoResponse | Replied(response: GetResponse)

  /** One discovery: it fails, or lists peers; each entry is what that peer does if it is tried. */
  datatype Lookup = DiscoveryFailed | Listed(attempts: seq<Attempt>)

  /**
   Everything the network does during a download: the lookup for the data map, then one for the
   `i`-th address asked for in each round. Nothing is assumed about any of them.
   */
  datatype World = World(first: Lookup, later: (nat, nat, Address) -> Lookup)

  datatype FetchError = LookupFailed | NoPeers | NoPeerServed

  datatype DownloadError = FetchFailed(fetch: FetchError) | RetrievalFailed(retrieval: RetrievalError)

  // ----- one chunk -----

  function GetVerified(lib: Lib, address: Address, attempt: Attempt): (r: Option<Bytes>)
    ensures r.Some? <==>
      && attempt.Replied? && attempt.response.Success?
      && attempt.response.address == address && lib.Hash(attempt.response.content) == address
    ensures r.Some? ==> r.value == attempt.response.content
  {
    match attempt
    case Replied(Success(echoed, content)) =>
      if echoed == address && lib.Hash(content) == address then Some(content) else None
    case _ => None
  }

  /** The first listed peer that serves something verified decides; the others do not matter. */
  function FirstServed(lib: Lib, address: Address, attempts: seq<Attempt>): (r: Result<Bytes, FetchError>)
    ensures r.Ok? ==> lib.Hash(r.value) == address
  {
    if attempts == [] then Err(NoPeerServed) else
    match GetVerified(lib, address, attempts[0])
    case Some(content) => Ok(content)
    case None => FirstServed(lib, address, attempts[1..])
  }

  function Fetch(lib: Lib, address: Address, lookup: Lookup): (r: Result<Bytes, FetchError>)
    ensures r.Ok? ==> lib.Hash(r.value) == address
  {
    match lookup
    case DiscoveryFailed => Err(LookupFailed)
    case Listed(attempts) => if attempts == [] then Err(NoPeers) else FirstServed(lib, address, attempts)
  }

  /** The peer answered for this address with content of that hash. */
  predicate ServesVerified(lib: Lib, address: Address, attempt: Attempt, content: Bytes) {
    attempt == Replied(Success(address, content)) && lib.Hash(content) == address
  }

  /** Peer `k` served it, and no peer before it did. */
  ghost predicate ServedFirst(lib: Lib, address: Address, attempts: seq<Attempt>, k: nat, content: Bytes) {
    && k < |attempts| && ServesVerified(lib, address, attempts[k], content)
    && forall j, other :: 0 <= j < k ==> !ServesVerified(lib, address, attempts[j], other)
  }

  lemma {:induction false} FirstServedIsFirst(lib: Lib, address: Address, attempts: seq<Attempt>)
    ensures match FirstServed(lib, address, attempts)
      case Ok(content) => exists k: nat :: ServedFirst(lib, address, attempts, k, content)
      case Err(e) =>
        && e == NoPeerServed
        && forall j, other :: 0 <= j < |attempts| ==> !ServesVerified(lib, address, attempts[j], other)
  {
    if attempts != [] {
      match GetVerified(lib, address, attempts[0]) {
        case Some(content) =>
          assert FirstServed(lib, address, attempts) == Ok(content);
          assert ServedFirst(lib, address, attempts, 0, content);
        case None =>
          FirstServedIsFirst(lib, address, attempts[1..]);
          assert FirstServed(lib, address, attempts) == FirstServed(lib, address, attempts[1..]);
          match FirstServed(lib, address, attempts[1..]) {
            case Ok(content) =>
              var k: nat :| ServedFirst(lib, address, attempts[1..], k, content);
              assert forall j :: 1 <= j <= k + 1 ==> attempts[j] == attempts[1..][j - 1];
              assert ServedFirst(lib, address, attempts, k + 1, content);
            case Err(_) =>
              forall j, other | 0 <= j < |attempts| ensures !ServesVerified(lib, address, attempts[j], other) {
                if j > 0 {
                  assert attempts[j] == attempts[1..][j - 1];
                }
              }
          }
      }
    }
  }

  /** A fetch gives what the first peer with a verified copy sent, and each error says what was missing. */
  lemma FetchDecides(lib: Lib, address: Address, lookup: Lookup)
    ensures match Fetch(lib, address, lookup)
      case Ok(content) =>
        lookup.Listed? && exists k: nat :: ServedFirst(lib, address, lookup.attempts, k, content)
      case Err(LookupFailed) => lookup.DiscoveryFailed?
      case Err(NoPeers) => lookup == Listed([])
      case Err(NoPeerServed) =>
        && lookup.Listed? && lookup.attempts != []
        && forall j, other :: 0 <= j < |lookup.attempts| ==>
             !ServesVerified(lib, address, lookup.attempts[j], other)
  {
    if lookup.Listed? {
      FirstServedIsFirst(lib, address, lookup.attempts);
    }
  }

  method GetDirect(lib: Lib, address: Address, lookup: Lookup) returns (r: Result<Bytes, FetchError>)
    ensures r == Fetch(lib, address, lookup)
  {
    if lookup.DiscoveryFailed? {
      return Err(LookupFailed);
    }
    var peers := lookup.attempts;
    if peers == [] {
      return Err(NoPeers);
    }
    for i := 0 to |peers|
      invariant FirstServed(lib, address, peers) == FirstServed(lib, address, peers[i..])
    {
      assert peers[i..][1..] == peers[i + 1..];
      if peers[i].NoConnection? {
        continue;
      }
      var content := GetVerified(lib, address, peers[i]);
      if content.Some? {
        return Ok(content.value);
      }
    }
    assert peers[|peers|..] == [];
    r := Err(NoPeerServed);
  }

  // ----- the rounds -----

  /** Supply a round's results in order; the first failure ends the download. */
  function SupplyRound(lib: Lib, world: World, round: nat, addrs: seq<Address>, i: nat, s: RState): (r: Result<RState,
                       DownloadError>)
    requires i <= |addrs|
    ensures r.Ok? ==> r.value.map_ == s.map_ && r.value.rootResolved == s.rootResolved
    ensures r.Ok? ==> r.value.cache.Keys == s.cache.Keys + set a | a in addrs[i..]
    decreases |addrs| - i
  {
    if i == |addrs| then Ok(s) else
    match Fetch(lib, addrs[i], world.later(round, i, addrs[i]))
    case Err(e) => Err(FetchFailed(e))
    case Ok(bytes) =>
      match SupplyState(lib, s, addrs[i], bytes)
      case Err(e) => Err(RetrievalFailed(e))
      case Ok(next) => SupplyRound(lib, world, round, addrs, i + 1, next)
  }

  datatype Outcome = Outcome(result: Result<Bytes, DownloadError>, rounds: nat, cache: Store)

  /** Each round resolves the root, or leaves no listed chunk missing, or ends the download. */
  function Rounds(lib: Lib, world: World, s: RState, round: nat): Outcome
    decreases !s.rootResolved, |Required(s)|
  {
    if Complete(s) then
      Outcome(match FinishState(lib, s) case Ok(b) => Ok(b) case Err(e) => Err(RetrievalFailed(e)), round, s.cache)
    else
      match SupplyRound(lib, world, round, Required(s), 0, s)
      case Err(e) => Outcome(Err(e), round + 1, s.cache)
      case Ok(full) =>
        assert Required(s)[0..] == Required(s);
        assert Required(full) == [];
        match AdvanceState(lib, full)
        case Err(e) => Outcome(Err(RetrievalFailed(e)), round + 1, full.cache)
        case Ok(next) => Rounds(lib, world, next, round + 1)
  }

  function DownloadOutcome(lib: Lib, world: World, address: Address): Outcome {
    match Fetch(lib, address, world.first)
    case Err(e) => Outcome(Err(FetchFailed(e)), 0, map[])
    case Ok(mapBytes) =>
      match BeginState(lib, address, mapBytes)
      case Err(e) => Outcome(Err(RetrievalFailed(e)), 0, map[])
      case Ok(s) => Rounds(lib, world, s, 0)
  }

  method Download(lib: Lib, world: World, address: Address) returns (r: Result<Bytes, DownloadError>, rounds: nat)
    ensures r == DownloadOutcome(lib, world, address).result && rounds == DownloadOutcome(lib, world, address).rounds
  {
    rounds := 0;
    var mapBytes := GetDirect(lib, address, world.first);
    if mapBytes.Err? {
      return Err(FetchFailed(mapBytes.error)), rounds;
    }
    var begun := Retrieval.Begin(lib, address, mapBytes.value);
    if begun.Err? {
      return Err(RetrievalFailed(begun.error)), rounds;
    }
    var retrieval := begun.value;
    while !Complete(retrieval.View())
      invariant fresh(retrieval) && retrieval.Valid() && retrieval.lib == lib
      invariant DownloadOutcome(lib, world, address) == Rounds(lib, world, retrieval.View(), rounds)
      decreases !retrieval.rootResolved, |Required(retrieval.View())|
    {
      ghost var s := retrieval.View();
      var addrs := Required(retrieval.View());
      assert addrs[0..] == addrs;
      var supplied := SupplyAll(lib, world, rounds, addrs, retrieval);
      rounds := rounds + 1;
      if supplied.Err? {
        return Err(supplied.error), rounds;
      }
      assert Required(retrieval.View()) == [];
      var advanced := retrieval.Advance();
      if advanced.Err? {
        return Err(RetrievalFailed(advanced.error)), rounds;
      }
    }
    r := match FinishState(lib, retrieval.View()) case Ok(b) => Ok(b) case Err(e) => Err(RetrievalFailed(e));
  }

  method SupplyAll(lib: Lib, world: World, round: nat, addrs: seq<Address>, retrieval: Retrieval)
    returns (r: Result<(), DownloadError>)
    requires retrieval.Valid() && retrieval.lib == lib
    modifies retrieval
    ensures retrieval.Valid()
    ensures match SupplyRound(lib, world, round, addrs, 0, old(retrieval.View()))
      case Err(e) => r == Err(e)
      case Ok(full) => r == Ok(()) && retrieval.View() == full
  {
    for i := 0 to |addrs|
      invariant retrieval.Valid()
      invariant SupplyRound(lib, world, round, addrs, 0, old(retrieval.View()))
             == SupplyRound(lib, world, round, addrs, i, retrieval.View())
    {
      var fetched := GetDirect(lib, addrs[i], world.later(round, i, addrs[i]));
      if fetched.Err? {
        return Err(FetchFailed(fetched.error));
      }
      var supplied := retrieval.Supply(addrs[i], fetched.value);
      match supplied {
        case Ok(_) =>
        case Err(e) => return Err(RetrievalFailed(e));
      }
    }
    r := Ok(());
  }
}
