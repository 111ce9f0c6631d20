/** What an upload stores, and that downloading its address gives the data back. */
module Upload {
  import opened Bytes
  import opened Retrieval
  import opened Download
  import opened VerifiedDownload

  datatype Item = Item(address: Address, content: Bytes)

  datatype Encrypted = Encrypted(map_: DataMap, chunks: seq<Bytes>)

  /** A shrunk map and the wrapper chunks the library hands out while shrinking, with their names. */
  datatype Shrunk = Shrunk(map_: DataMap, wrappers: seq<Item>)

  /** The library's encrypting half. */
  datatype Encryptor = Encryptor(
    encrypt: Bytes -> Option<Encrypted>,
    shrink: DataMap -> Option<Shrunk>,
    serializeMap: DataMap -> Bytes)

  datatype PrepareError = EncryptionFailed | ShrinkFailed

  /** Everything to store, in order, and the public address: that of the last item. */
  datatype Prepared = Prepared(items: seq<Item>, mapAddress: Address)

  function ItemFor(lib: Lib, content: Bytes): Item {
    Item(lib.Hash(content), content)
  }

  function ContentItems(lib: Lib, chunks: seq<Bytes>): (items: seq<Item>)
    ensures |items| == |chunks|
  {
    seq(|chunks|, i requires 0 <= i < |chunks| => ItemFor(lib, chunks[i]))
  }

  /** The content chunks in order, then the wrappers as the library named them, then the map at the public address. */
  ghost predicate InStoreOrder(lib: Lib, encrypted: Encrypted, shrunk: Shrunk, mapBytes: Bytes, p: Prepared) {
    var n, w := |encrypted.chunks|, |shrunk.wrappers|;
    && |p.items| == n + w + 1
    && (forall i :: 0 <= i < n ==>
          p.items[i].content == encrypted.chunks[i] && p.items[i].address == lib.Hash(encrypted.chunks[i]))
    && (forall i :: n <= i < n + w ==> p.items[i] == shrunk.wrappers[i - n])
    && p.items[n + w].content == mapBytes && p.items[n + w].address == p.mapAddress == lib.Hash(mapBytes)
  }

  function Prepare(lib: Lib, enc: Encryptor, data: Bytes): Result<Prepared, PrepareError> {
    match enc.encrypt(data)
    case None => Err(EncryptionFailed)
    case Some(encrypted) =>
      match enc.shrink(encrypted.map_)
      case None => Err(ShrinkFailed)
      case Some(shrunk) =>
        var mapItem := ItemFor(lib, enc.serializeMap(shrunk.map_));
        Ok(Prepared(ContentItems(lib, encrypted.chunks) + shrunk.wrappers + [mapItem], mapItem.address))
  }

  lemma StoreOrder(lib: Lib, enc: Encryptor, data: Bytes)
    ensures match Prepare(lib, enc, data)
      case Err(EncryptionFailed) => enc.encrypt(data).None?
      case Err(ShrinkFailed) => enc.encrypt(data).Some? && enc.shrink(enc.encrypt(data).value.map_).None?
      case Ok(p) =>
        && enc.encrypt(data).Some? && enc.shrink(enc.encrypt(data).value.map_).Some?
        && var encrypted := enc.encrypt(data).value;
           var shrunk := enc.shrink(encrypted.map_).value;
           InStoreOrder(lib, encrypted, shrunk, enc.serializeMap(shrunk.map_), p)
  {
  }

  method PrepareUpload(lib: Lib, enc: Encryptor, data: Bytes) returns (r: Result<Prepared, PrepareError>)
    ensures r == Prepare(lib, enc, data)
  {
    var encrypted := enc.encrypt(data);
    if encrypted.None? {
      return Err(EncryptionFailed);
    }
    var chunks := encrypted.value.chunks;
    var items: seq<Item> := [];
    for i := 0 to |chunks|
      invariant |items| == i && forall k :: 0 <= k < i ==> items[k] == ItemFor(lib, chunks[k])
    {
      items := items + [Item(lib.Hash(chunks[i]), chunks[i])];
    }
    var shrunk := enc.shrink(encrypted.value.map_);
    if shrunk.None? {
      return Err(ShrinkFailed);
    }
    var wrappers := shrunk.value.wrappers;
    ghost var content := items;
    for i := 0 to |wrappers|
      invariant items == content + wrappers[..i]
    {
      items := items + [wrappers[i]];
    }
    var mapBytes := enc.serializeMap(shrunk.value.map_);
    var mapAddress := lib.Hash(mapBytes);
    items := items + [Item(mapAddress, mapBytes)];
    assert content == ContentItems(lib, chunks);
    assert wrappers[..|wrappers|] == wrappers;
    r := Ok(Prepared(items, mapAddress));
  }

  // ----- what the library promises -----

  function StoreOf(items: seq<Item>): Store {
    if items == [] then map[]
      else StoreOf(items[..|items| - 1])[items[|items| - 1].address := items[|items| - 1].content]
  }

  /** Decrypting the chunks an encryption lists gives the data back. */
  ghost predicate EncryptContract(lib: Lib, enc: Encryptor) {
    forall data :: enc.encrypt(data).Some? ==>
      var e := enc.encrypt(data).value;
      && !e.map_.isChild
      && |e.map_.infos| == |e.chunks|
      && (forall i :: 0 <= i < |e.chunks| ==> e.map_.infos[i] == lib.Hash(e.chunks[i]))
      && lib.decrypt(e.map_, e.chunks) == Some(data)
  }

  /** Wrapper chunks are named by their hash, and walking them from the shrunk map leads back to the map. */
  ghost predicate ShrinkContract(lib: Lib, enc: Encryptor) {
    forall m: DataMap :: !m.isChild && enc.shrink(m).Some? ==>
      var s := enc.shrink(m).value;
      && (forall i :: 0 <= i < |s.wrappers| ==> s.wrappers[i].address == lib.Hash(s.wrappers[i].content))
      && GetRoot(lib, s.map_, StoreOf(s.wrappers), lib.maxDepth) == Some(m)
  }

  ghost predicate LibraryContract(lib: Lib, enc: Encryptor) {
    && EncryptContract(lib, enc)
    && ShrinkContract(lib, enc)
    && forall m: DataMap :: lib.parseMap(enc.serializeMap(m)) == Some(m)
  }

  // ----- the round trip -----

  lemma {:induction false} StoreOfItems(lib: Lib, items: seq<Item>)
    requires forall i :: 0 <= i < |items| ==> items[i].address == lib.Hash(items[i].content)
    ensures Sound(lib, StoreOf(items))
    ensures forall i :: 0 <= i < |items| ==> items[i].address in StoreOf(items)
    ensures forall a :: a in StoreOf(items) ==> exists i :: 0 <= i < |items| && items[i] == Item(a, StoreOf(items)[a])
  {
    if items != [] {
      var front := items[..|items| - 1];
      StoreOfItems(lib, front);
      forall a | a in StoreOf(items) ensures exists i :: 0 <= i < |items| && items[i] == Item(a, StoreOf(items)[a]) {
        if a == items[|items| - 1].address {
          assert items[|items| - 1] == Item(a, StoreOf(items)[a]);
        } else {
          var i :| 0 <= i < |front| && front[i] == Item(a, StoreOf(front)[a]);
          assert items[i] == Item(a, StoreOf(items)[a]);
        }
      }
    }
  }

  ghost predicate ItemsWithin(items: seq<Item>, contents: iset<Bytes>) {
    forall i :: 0 <= i < |items| ==> items[i].content in contents
  }

  lemma {:induction false} GatherChunks(lib: Lib, store: Store, infos: seq<Address>, chunks: seq<Bytes>,
                                        contents: iset<Bytes>)
    requires CollisionFree(lib, contents) && Sound(lib, store) && StoreWithin(store, contents)
    requires |infos| == |chunks|
    requires forall i :: 0 <= i < |chunks| ==>
      infos[i] == lib.Hash(chunks[i]) && infos[i] in store && chunks[i] in contents
    ensures Gather(store, infos) == Some(chunks)
  {
    if infos != [] {
      GatherChunks(lib, store, infos[1..], chunks[1..], contents);
      assert [chunks[0]] + chunks[1..] == chunks;
    }
  }

  lemma ItemsAreNamedByHash(lib: Lib, enc: Encryptor, data: Bytes)
    requires LibraryContract(lib, enc) && Prepare(lib, enc, data).Ok?
    ensures var items := Prepare(lib, enc, data).value.items;
      forall i :: 0 <= i < |items| ==> items[i].address == lib.Hash(items[i].content)
  {
    assert !enc.encrypt(data).value.map_.isChild;
  }

  /** The stored map is the shrunk one, and its wrappers lead back to the map the encryption made. */
  lemma UploadedRoot(lib: Lib, enc: Encryptor, data: Bytes, contents: iset<Bytes>)
    requires LibraryContract(lib, enc) && Prepare(lib, enc, data).Ok? && CollisionFree(lib, contents)
    requires ItemsWithin(Prepare(lib, enc, data).value.items, contents)
    ensures var p := Prepare(lib, enc, data).value;
      var encrypted := enc.encrypt(data).value;
      GetRoot(lib, enc.shrink(encrypted.map_).value.map_, StoreOf(p.items), lib.maxDepth) == Some(encrypted.map_)
  {
    var p := Prepare(lib, enc, data).value;
    var encrypted := enc.encrypt(data).value;
    var shrunk := enc.shrink(encrypted.map_).value;
    var n := |encrypted.chunks|;
    assert !encrypted.map_.isChild;
    ItemsAreNamedByHash(lib, enc, data);
    forall i | 0 <= i < |shrunk.wrappers| ensures p.items[n + i] == shrunk.wrappers[i] { }
    assert SubStore(StoreOf(shrunk.wrappers), StoreOf(p.items)) by {
      WrappersAreStored(lib, p.items, shrunk.wrappers, n, contents);
    }
    RootGrows(lib, shrunk.map_, StoreOf(shrunk.wrappers), StoreOf(p.items), lib.maxDepth);
  }

  /** The content chunks are all there, under the addresses the map lists. */
  lemma UploadedChunks(lib: Lib, enc: Encryptor, data: Bytes, contents: iset<Bytes>)
    requires LibraryContract(lib, enc) && Prepare(lib, enc, data).Ok? && CollisionFree(lib, contents)
    requires ItemsWithin(Prepare(lib, enc, data).value.items, contents)
    requires Sound(lib, StoreOf(Prepare(lib, enc, data).value.items))
    requires StoreWithin(StoreOf(Prepare(lib, enc, data).value.items), contents)
    ensures Gather(StoreOf(Prepare(lib, enc, data).value.items), enc.encrypt(data).value.map_.infos)
         == Some(enc.encrypt(data).value.chunks)
  {
    var p := Prepare(lib, enc, data).value;
    var encrypted := enc.encrypt(data).value;
    var n := |encrypted.chunks|;
    ItemsAreNamedByHash(lib, enc, data);
    StoreOfItems(lib, p.items);
    forall i | 0 <= i < n
      ensures encrypted.map_.infos[i] in StoreOf(p.items) && encrypted.chunks[i] in contents
    {
      assert p.items[i] == ItemFor(lib, encrypted.chunks[i]);
      assert p.items[i].address == encrypted.map_.infos[i];
    }
    GatherChunks(lib, StoreOf(p.items), encrypted.map_.infos, encrypted.chunks, contents);
  }

  lemma StoreOfItemsWithin(lib: Lib, items: seq<Item>, contents: iset<Bytes>)
    requires ItemsWithin(items, contents) && forall i :: 0 <= i < |items| ==>
      items[i].address == lib.Hash(items[i].content)
    ensures Sound(lib, StoreOf(items)) && StoreWithin(StoreOf(items), contents)
  {
    StoreOfItems(lib, items);
  }

  /** The stored items resolve to the data at the returned address. */
  lemma UploadResolves(lib: Lib, enc: Encryptor, data: Bytes, contents: iset<Bytes>)
    requires LibraryContract(lib, enc) && Prepare(lib, enc, data).Ok? && CollisionFree(lib, contents)
    requires ItemsWithin(Prepare(lib, enc, data).value.items, contents)
    ensures var p := Prepare(lib, enc, data).value;
      && Sound(lib, StoreOf(p.items)) && StoreWithin(StoreOf(p.items), contents)
      && Resolve(lib, StoreOf(p.items), p.mapAddress) == Some(data)
  {
    var p := Prepare(lib, enc, data).value;
    var last := p.items[|p.items| - 1];
    ItemsAreNamedByHash(lib, enc, data);
    StoreOfItemsWithin(lib, p.items, contents);
    assert StoreOf(p.items)[p.mapAddress] == last.content;
    UploadedRoot(lib, enc, data, contents);
    UploadedChunks(lib, enc, data, contents);
  }

  lemma WrappersAreStored(lib: Lib, items: seq<Item>, wrappers: seq<Item>, n: nat, contents: iset<Bytes>)
    requires CollisionFree(lib, contents) && ItemsWithin(items, contents)
    requires n + |wrappers| <= |items| && forall i :: 0 <= i < |wrappers| ==> items[n + i] == wrappers[i]
    requires forall i :: 0 <= i < |items| ==> items[i].address == lib.Hash(items[i].content)
    ensures SubStore(StoreOf(wrappers), StoreOf(items))
  {
    StoreOfItems(lib, items);
    forall i | 0 <= i < |wrappers| ensures wrappers[i].address == lib.Hash(wrappers[i].content) {
      assert items[n + i] == wrappers[i];
    }
    StoreOfItems(lib, wrappers);
    forall a | a in StoreOf(wrappers) ensures a in StoreOf(items) && StoreOf(items)[a] == StoreOf(wrappers)[a] {
      var i :| 0 <= i < |wrappers| && wrappers[i] == Item(a, StoreOf(wrappers)[a]);
      assert items[n + i].address == a && items[n + i].content in contents;
      var j :| 0 <= j < |items| && items[j] == Item(a, StoreOf(items)[a]);
      assert items[j].content in contents;
    }
  }

  /**
   Upload, then download: the same data, provided each stored chunk is still served by one listed
   peer. That is exactly when the map was shrunk at most once (or deeper wrappers add no chunks).
   */
  lemma DownloadReturnsUpload(lib: Lib, enc: Encryptor, data: Bytes, world: World, contents: iset<Bytes>)
    requires LibraryContract(lib, enc) && Prepare(lib, enc, data).Ok?
    requires CollisionFree(lib, contents) && WorldWithin(world, contents)
    requires ItemsWithin(Prepare(lib, enc, data).value.items, contents)
    requires Serves(world, StoreOf(Prepare(lib, enc, data).value.items), Prepare(lib, enc, data).value.mapAddress)
    ensures var p := Prepare(lib, enc, data).value;
      var m := enc.shrink(enc.encrypt(data).value.map_).value.map_;
      var shallow := forall w, a :: w in Wrappers(lib, m, StoreOf(p.items), lib.maxDepth) && a in w.infos ==>
        a in m.infos;
      && (DownloadOutcome(lib, world, p.mapAddress).result == Ok(data) <==> shallow)
      && (|Wrappers(lib, m, StoreOf(p.items), lib.maxDepth)| <= 1 ==> shallow)
  {
    var p := Prepare(lib, enc, data).value;
    var m := enc.shrink(enc.encrypt(data).value.map_).value.map_;
    var store := StoreOf(p.items);
    UploadResolves(lib, enc, data, contents);
    assert p.items[|p.items| - 1].content == enc.serializeMap(m);
    assert lib.parseMap(store[p.mapAddress]) == Some(m);
    DownloadSucceedsIff(lib, world, store, p.mapAddress, contents);
    var ws := Wrappers(lib, m, store, lib.maxDepth);
    if |ws| == 1 {
      assert ws[0] == m;
      assert forall w :: w in ws ==> w == m;
    }
  }
}
