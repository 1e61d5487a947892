/** The block database behind its caches: every cached read answers what a direct database
    read would, whatever saves, chain-status writes, lookups and evictions came before. */
module Store {
  import opened Options
  import opened Collections
  import opened BlockTree
  import opened ChainState

  datatype Header = Header(hash: Hash, block: Block, signatures: Witness)

  /** A vote result of round `seqNo`. */
  datatype VoteResult = VoteResult(seqNo: nat, contents: int)

  datatype Status = Status(height: nat, hash: Hash, irrHeight: nat, irrHash: Hash)

  /** The contents of a block's transaction list, by identity. */
  type Txs = int

  /** The status of a block's transactions, by identity. */
  type TxStatus = int

  datatype EntryKind = Normal | Coinbase | Crosschain | Vote

  /** What is known of an output: its kind, its height and whether it is spent. */
  datatype Entry = Entry(kind: EntryKind, height: nat, spent: bool)

  datatype Database = Database(
    headers: map<Hash, Header>,
    txs: map<Hash, Txs>,
    statuses: map<Hash, TxStatus>,
    utxos: map<Hash, Entry>,
    hashes: map<nat, seq<Hash>>,
    main: map<nat, Hash>,
    results: map<nat, VoteResult>,
    status: Option<Status>)

  function Get<K, V>(m: map<K, V>, k: K): (r: Option<V>) {
    if k in m then Some(m[k]) else None
  }

  /** Every record is filed under its own key. */
  ghost predicate Filed(db: Database) {
    && (forall h :: h in db.headers ==> db.headers[h].hash == h)
    && (forall n :: n in db.results ==> db.results[n].seqNo == n)
  }

  /** A cache holds nothing but what the table holds. */
  ghost predicate Mirrors<K, V>(lru: map<K, V>, table: map<K, V>) {
    forall k :: k in lru ==> k in table && table[k] == lru[k]
  }

  /** Writing one record keeps a mirror exactly when the cache has no other value under its key. */
  lemma {:induction false} MirrorsPut<K, V>(lru: map<K, V>, table: map<K, V>, k: K, v: V)
    requires Mirrors(lru, table)
    ensures Mirrors(lru, table[k := v]) <==> (k in lru ==> lru[k] == v)
  {
    if k in lru && lru[k] != v {
      assert table[k := v][k] != lru[k];
    }
  }

  // ----- what the writes do to the database

  function PutBlock(db: Database, header: Header, txs: Txs, status: TxStatus): (r: Database) {
    db.(hashes := db.hashes[header.block.height := Level(db.hashes, header.block.height) + [header.hash]],
        headers := db.headers[header.hash := header],
        txs := db.txs[header.hash := txs],
        statuses := db.statuses[header.hash := status])
  }

  /** A normal output is forgotten once spent, one from another chain until it is. */
  predicate Forgotten(e: Entry) {
    (e.kind.Crosschain? && !e.spent) || (e.kind.Normal? && e.spent)
  }

  /** The outputs after a view is written, whose entries in `rest` are still to come. */
  function PutView(utxos: map<Hash, Entry>, view: map<Hash, Entry>, rest: set<Hash>): (r: map<Hash, Entry>) {
    map o | o in utxos.Keys + view.Keys && (o !in view || o in rest ==> o in utxos) && (o in view && o !in rest ==> !Forgotten(view[o])) ::
      if o in view && o !in rest then view[o] else utxos[o]
  }

  function PutMain(main: map<nat, Hash>, headers: seq<Header>): (r: map<nat, Hash>) {
    if headers == [] then main else
    var h := headers[|headers| - 1];
    PutMain(main, headers[..|headers| - 1])[h.block.height := h.hash]
  }

  function PutResults(results: map<nat, VoteResult>, rs: seq<VoteResult>): (r: map<nat, VoteResult>) {
    if rs == [] then results else
    var v := rs[|rs| - 1];
    PutResults(results, rs[..|rs| - 1])[v.seqNo := v]
  }

  function PutStatus(db: Database, best: Header, irr: Header, main: seq<Header>, view: map<Hash, Entry>, rs: seq<VoteResult>): (r: Database) {
    var hi := if db.status.Some? then db.status.value.height else 0;
    db.(utxos := PutView(db.utxos, view, {}),
        status := Some(Status(best.block.height, best.hash, irr.block.height, irr.hash)),
        results := PutResults(db.results, rs),
        main := DropIndex(PutMain(db.main, main), best.block.height, hi))
  }

  lemma {:induction false} PutResultsFiled(results: map<nat, VoteResult>, rs: seq<VoteResult>)
    requires forall n :: n in results ==> results[n].seqNo == n
    ensures forall n :: n in PutResults(results, rs) ==> PutResults(results, rs)[n].seqNo == n
    decreases |rs|
  {
    if rs != [] {
      PutResultsFiled(results, rs[..|rs| - 1]);
    }
  }

  class Store {
    var db: Database
    var lruHeaders: map<Hash, Header>
    var lruTxs: map<Hash, Txs>
    var lruHashes: map<nat, seq<Hash>>
    var lruMain: map<nat, Hash>
    var lruResults: map<nat, VoteResult>

    /** Every cached entry is what the database holds; the absence of hashes is cached as an empty list. */
    ghost predicate Coherent()
      reads this
    {
      && Filed(db)
      && Mirrors(lruHeaders, db.headers)
      && Mirrors(lruTxs, db.txs)
      && (forall n :: n in lruHashes ==> lruHashes[n] == Level(db.hashes, n))
      && Mirrors(lruMain, db.main)
      && Mirrors(lruResults, db.results)
    }

    constructor (d: Database)
      requires Filed(d)
      ensures db == d && Coherent()
    {
      db := d;
      lruHeaders, lruTxs, lruHashes, lruMain, lruResults := map[], map[], map[], map[], map[];
    }

    method LookupBlockHeader(hash: Hash) returns (r: Option<Header>)
      requires Coherent()
      modifies this`lruHeaders
      ensures r == Get(db.headers, hash) == Get(lruHeaders, hash) && Coherent()
    {
      if hash in lruHeaders {
        return Some(lruHeaders[hash]);
      }
      r := Get(db.headers, hash);
      if r.Some? {
        lruHeaders := lruHeaders[r.value.hash := r.value];
      }
    }

    method LookupBlockTxs(hash: Hash) returns (r: Option<Txs>)
      requires Coherent()
      modifies this`lruTxs
      ensures r == Get(db.txs, hash) == Get(lruTxs, hash) && Coherent()
    {
      if hash in lruTxs {
        return Some(lruTxs[hash]);
      }
      r := Get(db.txs, hash);
      if r.Some? {
        lruTxs := lruTxs[hash := r.value];
      }
    }

    method LookupBlockHashesByHeight(height: nat) returns (r: seq<Hash>)
      requires Coherent()
      modifies this`lruHashes
      ensures r == Level(db.hashes, height) && Get(lruHashes, height) == Some(r) && Coherent()
    {
      if height in lruHashes {
        return lruHashes[height];
      }
      r := Level(db.hashes, height);
      lruHashes := lruHashes[height := r];
    }

    method LookupMainChainHash(height: nat) returns (r: Option<Hash>)
      requires Coherent()
      modifies this`lruMain
      ensures r == Get(db.main, height) == Get(lruMain, height) && Coherent()
    {
      if height in lruMain {
        return Some(lruMain[height]);
      }
      r := Get(db.main, height);
      if r.Some? {
        lruMain := lruMain[height := r.value];
      }
    }

    method LookupConsensusResult(seqNo: nat) returns (r: Option<VoteResult>)
      requires Coherent()
      modifies this`lruResults
      ensures r == Get(db.results, seqNo) == Get(lruResults, seqNo) && Coherent()
    {
      if seqNo in lruResults {
        return Some(lruResults[seqNo]);
      }
      r := Get(db.results, seqNo);
      if r.Some? {
        lruResults := lruResults[r.value.seqNo := r.value];
      }
    }

    /** Any entries may leave any of the caches at any time. */
    method Evict(headers: set<Hash>, txs: set<Hash>, hashes: set<nat>, main: set<nat>, results: set<nat>)
      requires Coherent()
      modifies this
      ensures db == old(db) && Coherent()
      ensures lruHeaders == old(lruHeaders) - headers && lruTxs == old(lruTxs) - txs
      ensures lruHashes == old(lruHashes) - hashes && lruMain == old(lruMain) - main && lruResults == old(lruResults) - results
    {
      lruHeaders, lruTxs := lruHeaders - headers, lruTxs - txs;
      lruHashes, lruMain, lruResults := lruHashes - hashes, lruMain - main, lruResults - results;
    }

    /** Save a block. The header and transaction caches are not invalidated, so the caches stay
        coherent exactly when they hold nothing else under the block's hash. */
    method SaveBlock(header: Header, txs: Txs, status: TxStatus)
      requires Coherent()
      modifies this
      ensures db == PutBlock(old(db), header, txs, status) && lruHeaders == old(lruHeaders) && lruTxs == old(lruTxs)
      ensures Coherent() <==>
                && (header.hash in old(lruHeaders) ==> old(lruHeaders)[header.hash] == header)
                && (header.hash in old(lruTxs) ==> old(lruTxs)[header.hash] == txs)
      ensures header.hash !in old(db).headers && header.hash !in old(db).txs ==> Coherent()
    {
      var hashes := LookupBlockHashesByHeight(header.block.height);
      db := db.(hashes := db.hashes[header.block.height := hashes + [header.hash]],
                headers := db.headers[header.hash := header],
                txs := db.txs[header.hash := txs],
                statuses := db.statuses[header.hash := status]);
      lruHashes := lruHashes - {header.block.height};
      MirrorsPut(lruHeaders, old(db).headers, header.hash, header);
      MirrorsPut(lruTxs, old(db).txs, header.hash, txs);
    }

    /** Write a header back, with its signatures. */
    method SaveBlockHeader(header: Header)
      requires Coherent()
      modifies this
      ensures db == old(db).(headers := old(db).headers[header.hash := header]) && Coherent()
    {
      db := db.(headers := db.headers[header.hash := header]);
      lruHeaders := lruHeaders - {header.hash};
    }

    /** Write the chain status in one batch, then clear the cache entries it touched. */
    method SaveChainStatus(best: Header, irr: Header, main: seq<Header>, view: map<Hash, Entry>, rs: seq<VoteResult>)
      requires Coherent()
      modifies this
      ensures db == PutStatus(old(db), best, irr, main, view, rs) && Coherent()
    {
      var utxos := SaveUtxoView(db.utxos, view);
      var results, staleResults := PutResultsLoop(db.results, rs);
      var index, staleHeights := PutMainLoop(db.main, main, best.block.height, if db.status.Some? then db.status.value.height else 0);
      db := db.(utxos := utxos, results := results, main := index,
                status := Some(Status(best.block.height, best.hash, irr.block.height, irr.hash)));
      lruResults := lruResults - staleResults;
      lruMain := lruMain - staleHeights;
    }
  }

  /** A block saved again under a hash whose header is cached, here with one signature more: the
      cached read then differs from the direct one. */
  method StaleAfterResave() returns (s: Store)
    ensures 1 in s.lruHeaders && 1 in s.db.headers && s.lruHeaders[1] != s.db.headers[1] && !s.Coherent()
  {
    var b := Block(0, 0, 0);
    var first, second := Header(1, b, map[]), Header(1, b, map[0 := 7]);
    s := new Store(Database(map[1 := first], map[1 := 5], map[1 := 0], map[], map[0 := [1]], map[0 := 1], map[], None));
    var read := s.LookupBlockHeader(1);
    s.SaveBlock(second, 5, 0);
  }

  lemma {:induction false} PutViewStep(utxos: map<Hash, Entry>, view: map<Hash, Entry>, rest: set<Hash>, o: Hash)
    requires o in rest && rest <= view.Keys
    ensures PutView(utxos, view, rest - {o}) ==
              if Forgotten(view[o]) then PutView(utxos, view, rest) - {o} else PutView(utxos, view, rest)[o := view[o]]
  {
  }

  /** The loop over the entries of a view, in any order. */
  method SaveUtxoView(utxos: map<Hash, Entry>, view: map<Hash, Entry>) returns (r: map<Hash, Entry>)
    ensures r == PutView(utxos, view, {})
    ensures forall o :: o in view && view[o].kind == Normal ==> (o in r <==> !view[o].spent)
    ensures forall o :: o in view && view[o].kind == Crosschain ==> (o in r <==> view[o].spent)
  {
    r := utxos;
    var rest := view.Keys;
    while rest != {}
      invariant rest <= view.Keys && r == PutView(utxos, view, rest)
      decreases |rest|
    {
      ghost var some := SomeKey(rest);
      assert some in rest;
      var o :| o in rest;
      PutViewStep(utxos, view, rest, o);
      r := if Forgotten(view[o]) then r - {o} else r[o := view[o]];
      rest := rest - {o};
    }
  }

  /** What a view leaves of an output: its entry, if that is to be kept; the others stay. A normal
      output is kept while unspent, one from another chain once spent, the others always. */
  lemma {:induction false} PutViewAt(utxos: map<Hash, Entry>, view: map<Hash, Entry>, o: Hash)
    ensures o !in view ==> Get(PutView(utxos, view, {}), o) == Get(utxos, o)
    ensures o in view && view[o].kind == Normal ==>
              Get(PutView(utxos, view, {}), o) == if view[o].spent then None else Some(view[o])
    ensures o in view && view[o].kind == Crosschain ==>
              Get(PutView(utxos, view, {}), o) == if view[o].spent then Some(view[o]) else None
    ensures o in view && view[o].kind in {Coinbase, Vote} ==> Get(PutView(utxos, view, {}), o) == Some(view[o])
  {
  }

  /** A saved block can be read back, its hash is listed last at its height, and nothing else reads
      differently. */
  lemma {:induction false} SavedReads(db: Database, header: Header, txs: Txs, status: TxStatus, h: Hash, n: nat)
    ensures var r := PutBlock(db, header, txs, status);
            && Get(r.headers, h) == (if h == header.hash then Some(header) else Get(db.headers, h))
            && Get(r.txs, h) == (if h == header.hash then Some(txs) else Get(db.txs, h))
            && Get(r.statuses, h) == (if h == header.hash then Some(status) else Get(db.statuses, h))
            && Level(r.hashes, n) == Level(db.hashes, n) + (if n == header.block.height then [header.hash] else [])
            && r.utxos == db.utxos && r.main == db.main && r.results == db.results && r.status == db.status
  {
  }

  lemma {:induction false} PutMainElsewhere(main: map<nat, Hash>, headers: seq<Header>, n: nat)
    requires forall i :: 0 <= i < |headers| ==> headers[i].block.height != n
    ensures Get(PutMain(main, headers), n) == Get(main, n)
    decreases |headers|
  {
    if headers != [] {
      PutMainElsewhere(main, headers[..|headers| - 1], n);
    }
  }

  /** A written height holds the hash of the last header written for it. */
  lemma {:induction false} PutMainAt(main: map<nat, Hash>, headers: seq<Header>, n: nat, i: nat)
    requires i < |headers| && headers[i].block.height == n
    requires forall j :: i < j < |headers| ==> headers[j].block.height != n
    ensures Get(PutMain(main, headers), n) == Some(headers[i].hash)
    decreases |headers|
  {
    if i < |headers| - 1 {
      PutMainAt(main, headers[..|headers| - 1], n, i);
    }
  }

  lemma {:induction false} PutResultsElsewhere(results: map<nat, VoteResult>, rs: seq<VoteResult>, n: nat)
    requires forall i :: 0 <= i < |rs| ==> rs[i].seqNo != n
    ensures Get(PutResults(results, rs), n) == Get(results, n)
    decreases |rs|
  {
    if rs != [] {
      PutResultsElsewhere(results, rs[..|rs| - 1], n);
    }
  }

  lemma {:induction false} PutResultsAt(results: map<nat, VoteResult>, rs: seq<VoteResult>, n: nat, i: nat)
    requires i < |rs| && rs[i].seqNo == n && forall j :: i < j < |rs| ==> rs[j].seqNo != n
    ensures Get(PutResults(results, rs), n) == Some(rs[i])
    decreases |rs|
  {
    if i < |rs| - 1 {
      PutResultsAt(results, rs[..|rs| - 1], n, i);
    }
  }

  /** After a status write the status names the two blocks, and blocks are left alone. */
  lemma {:induction false} StatusReads(db: Database, best: Header, irr: Header, main: seq<Header>, view: map<Hash, Entry>, rs: seq<VoteResult>)
    ensures var r := PutStatus(db, best, irr, main, view, rs);
            && r.status.Some? && r.status.value.hash == best.hash && r.status.value.height == best.block.height
            && r.status.value.irrHash == irr.hash && r.status.value.irrHeight == irr.block.height
            && r.headers == db.headers && r.txs == db.txs && r.statuses == db.statuses && r.hashes == db.hashes
  {
  }

  /** The index then has nothing above the best block up to the old one, and keeps what it had at
      heights not written. */
  lemma {:induction false} IndexReads(db: Database, best: Header, irr: Header, main: seq<Header>, view: map<Hash, Entry>, rs: seq<VoteResult>, n: nat)
    requires forall k :: 0 <= k < |main| ==> main[k].block.height != n
    ensures Get(PutStatus(db, best, irr, main, view, rs).main, n) ==
              if best.block.height < n && db.status.Some? && n <= db.status.value.height then None else Get(db.main, n)
  {
    PutMainElsewhere(db.main, main, n);
  }

  /** A height that is written has the hash of the last header written for it. */
  lemma {:induction false} IndexWritten(db: Database, best: Header, irr: Header, main: seq<Header>, view: map<Hash, Entry>, rs: seq<VoteResult>, i: nat)
    requires i < |main| && forall k :: i < k < |main| ==> main[k].block.height != main[i].block.height
    ensures var n := main[i].block.height;
            Get(PutStatus(db, best, irr, main, view, rs).main, n) ==
              if best.block.height < n && db.status.Some? && n <= db.status.value.height then None else Some(main[i].hash)
  {
    PutMainAt(db.main, main, main[i].block.height, i);
  }

  /** A round has the last vote result written for it, or what it had. */
  lemma {:induction false} ResultsReads(db: Database, best: Header, irr: Header, main: seq<Header>, view: map<Hash, Entry>, rs: seq<VoteResult>, n: nat, i: nat)
    ensures var r := PutStatus(db, best, irr, main, view, rs);
            && ((forall k :: 0 <= k < |rs| ==> rs[k].seqNo != n) ==> Get(r.results, n) == Get(db.results, n))
            && (i < |rs| && rs[i].seqNo == n && (forall k :: i < k < |rs| ==> rs[k].seqNo != n) ==> Get(r.results, n) == Some(rs[i]))
  {
    if forall k :: 0 <= k < |rs| ==> rs[k].seqNo != n {
      PutResultsElsewhere(db.results, rs, n);
    } else if i < |rs| && rs[i].seqNo == n && forall k :: i < k < |rs| ==> rs[k].seqNo != n {
      PutResultsAt(db.results, rs, n, i);
    }
  }

  /** The hashes of headers. */
  function HashesOf(headers: seq<Header>): (hs: seq<Hash>)
    ensures |hs| == |headers|
  {
    if headers == [] then [] else HashesOf(headers[..|headers| - 1]) + [headers[|headers| - 1].hash]
  }

  lemma {:induction false} HashesAt(headers: seq<Header>, i: nat)
    requires i < |headers|
    ensures HashesOf(headers)[i] == headers[i].hash
    decreases |headers|
  {
    if i < |headers| - 1 {
      HashesAt(headers[..|headers| - 1], i);
    }
  }

  /** Written for headers of stored blocks, the index of the database is that of the chain. */
  lemma {:induction false} PutMainIsWriteIndex(t: Tree, main: map<nat, Hash>, headers: seq<Header>)
    requires forall i :: 0 <= i < |headers| ==> headers[i].hash in t && t[headers[i].hash] == headers[i].block
    ensures AllStored(t, HashesOf(headers)) && PutMain(main, headers) == WriteIndex(t, main, HashesOf(headers))
    decreases |headers|
  {
    forall i | 0 <= i < |headers| ensures HashesOf(headers)[i] in t {
      HashesAt(headers, i);
    }
    if headers != [] {
      var n := |headers| - 1;
      PutMainIsWriteIndex(t, main, headers[..n]);
      assert HashesOf(headers)[..n] == HashesOf(headers[..n]);
      assert headers[n].hash in t;
    }
  }

  /** The vote results of a status batch and the cache keys to clear. */
  method PutResultsLoop(results: map<nat, VoteResult>, rs: seq<VoteResult>) returns (r: map<nat, VoteResult>, stale: set<nat>)
    requires forall n :: n in results ==> results[n].seqNo == n
    ensures r == PutResults(results, rs)
    ensures forall n :: n in r ==> r[n].seqNo == n
    ensures forall n :: n !in stale ==> Get(r, n) == Get(results, n)
  {
    r, stale := results, {};
    for i := 0 to |rs|
      invariant r == PutResults(results, rs[..i])
      invariant forall n :: n !in stale ==> Get(r, n) == Get(results, n)
    {
      assert rs[..i + 1][..i] == rs[..i];
      r, stale := r[rs[i].seqNo := rs[i]], stale + {rs[i].seqNo};
    }
    assert rs[..|rs|] == rs;
    PutResultsFiled(results, rs);
  }

  /** The main-chain index of a status batch and the cache keys to clear. */
  method PutMainLoop(main: map<nat, Hash>, headers: seq<Header>, lo: nat, hi: nat) returns (r: map<nat, Hash>, stale: set<nat>)
    ensures r == DropIndex(PutMain(main, headers), lo, hi)
    ensures forall n :: n !in stale ==> Get(r, n) == Get(main, n)
  {
    r, stale := main, {};
    for i := 0 to |headers|
      invariant r == PutMain(main, headers[..i])
      invariant forall n :: n !in stale ==> Get(r, n) == Get(main, n)
    {
      assert headers[..i + 1][..i] == headers[..i];
      r, stale := r[headers[i].block.height := headers[i].hash], stale + {headers[i].block.height};
    }
    assert headers[..|headers|] == headers;
    var n := lo + 1;
    while n <= hi
      invariant lo < n
      invariant r == DropIndex(PutMain(main, headers), lo, if n <= hi then n - 1 else hi)
      invariant forall n :: n !in stale ==> Get(r, n) == Get(main, n)
    {
      r, stale := r - {n}, stale + {n};
      n := n + 1;
    }
  }

  // ----- the round a block votes in

  predicate RoundEnd(height: nat, round: nat)
    requires 0 < round
  {
    height % round == 0
  }

  /** The nearest ancestor-or-self of `h` whose height is a multiple of the round length. */
  ghost function RoundStart(t: Tree, g: Hash, h: Hash, round: nat): (r: Hash)
    requires Rooted(t, g) && h in t && 0 < round
    ensures r in t
    decreases t[h].height
  {
    if RoundEnd(t[h].height, round) || h == g then h else
    assert Linked(t, g, h);
    RoundStart(t, g, t[h].prev, round)
  }

  lemma {:induction false} RoundStartIsNearest(t: Tree, g: Hash, h: Hash, round: nat)
    requires Rooted(t, g) && h in t && 0 < round
    ensures var r := RoundStart(t, g, h, round);
            && t[r].height % round == 0 && IsAncestor(t, g, r, h)
            && forall n :: t[r].height < n <= t[h].height ==> n % round != 0
    decreases t[h].height
  {
    GenesisEndsRound(t, g, round);
    if !RoundEnd(t[h].height, round) {
      assert Linked(t, g, h);
      RoundStartIsNearest(t, g, t[h].prev, round);
    }
  }

  /** Blocks saved later do not change it. */
  lemma {:induction false} RoundStartGrow(t: Tree, u: Tree, g: Hash, h: Hash, round: nat)
    requires Rooted(t, g) && Rooted(u, g) && h in t && 0 < round
    requires forall x :: x in t ==> x in u && u[x] == t[x]
    ensures RoundStart(u, g, h, round) == RoundStart(t, g, h, round)
    decreases t[h].height
  {
    if !RoundEnd(t[h].height, round) && h != g {
      assert Linked(t, g, h);
      RoundStartGrow(t, u, g, t[h].prev, round);
    }
  }

  method WalkToRoundEnd(t: Tree, ghost g: Hash, round: nat, hash: Hash) returns (h: Hash)
    requires Rooted(t, g) && 0 < round && hash in t
    ensures h == RoundStart(t, g, hash, round)
  {
    h := hash;
    GenesisEndsRound(t, g, round);
    while !RoundEnd(t[h].height, round)
      invariant h in t && RoundStart(t, g, h, round) == RoundStart(t, g, hash, round)
      decreases t[h].height
    {
      assert Linked(t, g, h);
      h := t[h].prev;
    }
  }

  lemma {:induction false} GenesisEndsRound(t: Tree, g: Hash, round: nat)
    requires Rooted(t, g) && 0 < round
    ensures RoundEnd(t[g].height, round)
  {
  }

  /** The memo of round starts kept beside the store. */
  class RoundMemo {
    var memo: map<Hash, Hash>

    ghost predicate Right(t: Tree, g: Hash, round: nat)
      requires Rooted(t, g) && 0 < round
      reads this
    {
      forall h :: h in memo ==> h in t && memo[h] == RoundStart(t, g, h, round)
    }

    /** Blocks saved in between do not make the memo wrong. */
    lemma {:induction false} StaysRight(t: Tree, u: Tree, g: Hash, round: nat)
      requires Rooted(t, g) && Rooted(u, g) && 0 < round && Right(t, g, round)
      requires forall x :: x in t ==> x in u && u[x] == t[x]
      ensures Right(u, g, round)
    {
      forall h | h in memo ensures h in u && memo[h] == RoundStart(u, g, h, round) {
        RoundStartGrow(t, u, g, h, round);
      }
    }

    method GetPrevRoundVoteBlockHash(t: Tree, ghost g: Hash, round: nat, hash: Hash) returns (r: Option<Hash>)
      requires Rooted(t, g) && 0 < round && Right(t, g, round)
      modifies this
      ensures r == if hash in t then Some(RoundStart(t, g, hash, round)) else None
      ensures Right(t, g, round)
    {
      if hash in memo {
        return Some(memo[hash]);
      }
      if hash !in t {
        return None;
      }
      if RoundEnd(t[hash].height, round) {
        memo := memo[hash := hash];
        return Some(hash);
      }
      GenesisEndsRound(t, g, round);
      assert Linked(t, g, hash);
      if t[hash].prev in memo {
        memo := memo[hash := memo[t[hash].prev]];
        return Some(memo[t[hash].prev]);
      }
      var h := WalkToRoundEnd(t, g, round, hash);
      memo := memo[hash := h];
      r := Some(h);
    }
  }
}
