/** The cached operation table and the group history built from it.  `_persist` hands a shared
    operation to whichever wallet ingested it last, and `load_wallet_data` reads by owner, so what
    the ingest-then-load loop of `attest_group` collects needs an argument. */
module GroupHistory {
  import opened Common

  type Text = string

  /** A Horizon operation record, with the fields the features read. */
  datatype Op = Op(
    id: Text,
    kind: Text,
    successful: bool,
    createdAt: Option<int>,
    amount: real,
    payer: Option<Text>,
    source: Option<Text>,
    payee: Option<Text>,
    assetType: Option<Text>,
    sourceAssetType: Option<Text>)

  datatype Balance = Balance(assetType: Option<Text>, assetCode: Option<Text>, assetIssuer: Option<Text>, amount: real)

  datatype AssetKey = AssetKey(assetType: Option<Text>, assetCode: Option<Text>, assetIssuer: Option<Text>)

  function KeyOf(b: Balance): AssetKey {
    AssetKey(b.assetType, b.assetCode, b.assetIssuer)
  }

  // ----- Fetching -----

  function Pages(pages: seq<seq<Op>>): seq<Op> {
    if pages == [] || pages[0] == [] then [] else pages[0] + Pages(pages[1..])
  }

  function AllPages(pages: seq<seq<Op>>): seq<Op> {
    if pages == [] then [] else AllPages(pages[..|pages| - 1]) + pages[|pages| - 1]
  }

  lemma {:induction false} AllPagesFromFront(pages: seq<seq<Op>>)
    requires pages != []
    ensures AllPages(pages) == pages[0] + AllPages(pages[1..])
  {
    if |pages| > 1 {
      var front := pages[..|pages| - 1];
      AllPagesFromFront(front);
      assert pages[1..][..|pages| - 2] == front[1..];
      assert pages[0] + (AllPages(front[1..]) + pages[|pages| - 1]) == (pages[0] + AllPages(front[1..])) + pages[|pages| - 1];
    }
  }

  /** Everything before the first empty page, in order, and nothing after it. */
  lemma {:induction false} PagesBeforeEmpty(pages: seq<seq<Op>>, k: nat)
    requires k <= |pages| && (k < |pages| ==> pages[k] == []) && forall j :: 0 <= j < k ==> pages[j] != []
    ensures Pages(pages) == AllPages(pages[..k])
  {
    if k > 0 {
      PagesBeforeEmpty(pages[1..], k - 1);
      AllPagesFromFront(pages[..k]);
      assert pages[..k][1..] == pages[1..][..k - 1];
    }
  }

  /** Follows pages until one is empty, the links end, or the cap is reached. */
  method FetchOperations(pages: seq<seq<Op>>, cap: nat) returns (ops: seq<Op>)
    ensures ops == (if |Pages(pages)| <= cap then Pages(pages) else Pages(pages)[..cap])
  {
    ops := [];
    var next := 0;
    while next < |pages| && |ops| < cap
      invariant 0 <= next <= |pages|
      invariant ops + Pages(pages[next..]) == Pages(pages)
    {
      var records := pages[next];
      if records == [] { break; }
      assert Pages(pages[next..]) == records + Pages(pages[next + 1..]);
      assert ops + (records + Pages(pages[next + 1..])) == (ops + records) + Pages(pages[next + 1..]);
      ops := ops + records;
      next := next + 1;
    }
    if |ops| > cap {
      ops := ops[..cap];
    }
  }

  // ----- The cache -----

  datatype OpRow = OpRow(owner: Text, op: Op)

  /** The account's balances and its fetched operations; None is Horizon's 404. */
  datatype Fetched = Fetched(balances: seq<Balance>, ops: seq<Op>)

  /** Every operation belongs to an ingested account, under its own id. */
  ghost predicate TableOk(rows: map<Text, OpRow>, accounts: map<Text, seq<Balance>>) {
    forall id :: id in rows ==> rows[id].owner in accounts && rows[id].op.id == id
  }

  ghost function IdsOf(ops: seq<Op>): set<Text> {
    set op | op in ops :: op.id
  }

  ghost function SetOf(ops: seq<Op>): set<Op> {
    set op | op in ops
  }

  /** The table after merging the records one by one, each handed to `address`. */
  ghost function Persisted(rows: map<Text, OpRow>, address: Text, ops: seq<Op>): map<Text, OpRow> {
    if ops == [] then rows
    else
      var last := ops[|ops| - 1];
      Persisted(rows, address, ops[..|ops| - 1])[last.id := OpRow(address, last)]
  }

  /** Persisting changes the owner of exactly the persisted ids. */
  lemma {:induction false} PersistedFacts(rows: map<Text, OpRow>, address: Text, ops: seq<Op>)
    ensures var rows' := Persisted(rows, address, ops);
            && rows'.Keys == rows.Keys + IdsOf(ops)
            && (forall id :: id in rows' && id !in IdsOf(ops) ==> rows'[id] == rows[id])
            && (forall id :: id in IdsOf(ops) ==> rows'[id].owner == address && rows'[id].op in ops && rows'[id].op.id == id)
  {
    if ops != [] {
      var front, last := ops[..|ops| - 1], ops[|ops| - 1];
      PersistedFacts(rows, address, front);
      assert ops == front + [last];
      assert IdsOf(ops) == IdsOf(front) + {last.id};
    }
  }

  /** Ingesting the same history again changes nothing. */
  lemma PersistTwice(rows: map<Text, OpRow>, address: Text, ops: seq<Op>, record: map<Text, Op>)
    requires forall op :: op in ops ==> op.id in record && op == record[op.id]
    ensures Persisted(Persisted(rows, address, ops), address, ops) == Persisted(rows, address, ops)
  {
    var once := Persisted(rows, address, ops);
    var twice := Persisted(once, address, ops);
    PersistedFacts(rows, address, ops);
    PersistedFacts(once, address, ops);
    forall id | id in twice ensures twice[id] == once[id] {
      if id in IdsOf(ops) {
        assert twice[id].op == record[id] == once[id].op;
      }
    }
  }

  /** Equal ids mean equal records. */
  ghost predicate Canonical(record: map<Text, Op>, rows: map<Text, OpRow>, horizon: map<Text, Fetched>) {
    && (forall id :: id in rows ==> id in record && rows[id].op == record[id])
    && (forall a :: a in horizon ==> forall op :: op in horizon[a].ops ==> op.id in record && op == record[op.id])
  }

  lemma PersistKeepsTable(rows: map<Text, OpRow>, accounts: map<Text, seq<Balance>>, address: Text, balances: seq<Balance>, ops: seq<Op>)
    requires TableOk(rows, accounts)
    ensures TableOk(Persisted(rows, address, ops), accounts[address := balances])
  {
    PersistedFacts(rows, address, ops);
  }

  class Cache {
    var rows: map<Text, OpRow>
    var accounts: map<Text, seq<Balance>>

    constructor ()
      ensures rows == map[] && accounts == map[] && TableOk(rows, accounts)
    {
      rows, accounts := map[], map[];
    }

    /** `_persist`: each record is merged under its id and handed to `address`. */
    method Persist(address: Text, balances: seq<Balance>, ops: seq<Op>) returns (inserted: nat)
      requires TableOk(rows, accounts)
      modifies this
      ensures TableOk(rows, accounts)
      ensures accounts == old(accounts)[address := balances] && rows == Persisted(old(rows), address, ops)
      ensures inserted == |rows| - |old(rows)|
    {
      accounts := accounts[address := balances];
      inserted := 0;
      for i := 0 to |ops|
        invariant accounts == old(accounts)[address := balances]
        invariant rows == Persisted(old(rows), address, ops[..i])
        invariant inserted == |rows| - |old(rows)|
      {
        assert ops[..i + 1][..i] == ops[..i];
        var isNew := MergeRow(address, ops[i]);
        if isNew {
          inserted := inserted + 1;
        }
      }
      assert ops[..|ops|] == ops;
      PersistKeepsTable(old(rows), old(accounts), address, balances, ops);
    }

    /** One merge; a new row counts once. */
    method MergeRow(address: Text, op: Op) returns (isNew: bool)
      modifies this`rows
      ensures rows == old(rows)[op.id := OpRow(address, op)]
      ensures |rows| == |old(rows)| + if isNew then 1 else 0
    {
      isNew := op.id !in rows;
      assert rows[op.id := OpRow(address, op)].Keys == rows.Keys + {op.id};
      rows := rows[op.id := OpRow(address, op)];
    }

    /** `ingest_wallet` on a fixed Horizon snapshot; an unknown account changes nothing. */
    method IngestWallet(address: Text, horizon: map<Text, Fetched>) returns (inserted: nat)
      requires TableOk(rows, accounts)
      modifies this
      ensures TableOk(rows, accounts)
      ensures Ingested(old(rows), old(accounts), horizon, address, rows, accounts)
      ensures inserted == |rows| - |old(rows)|
    {
      if address !in horizon { return 0; }
      inserted := Persist(address, horizon[address].balances, horizon[address].ops);
    }

    /** `load_wallet_data`: the account's balances and the rows it owns, in any order. */
    method Load(address: Text) returns (found: bool, balances: seq<Balance>, ops: seq<Op>)
      requires TableOk(rows, accounts)
      ensures found <==> address in accounts
      ensures balances == if address in accounts then accounts[address] else []
      ensures OnceEach(ops, OwnedBy(rows, address))
    {
      found, balances, ops := address in accounts, [], [];
      if !found { return; }
      balances := accounts[address];
      var pending := set id | id in rows && rows[id].owner == address;
      ghost var all := pending;
      while pending != {}
        invariant pending <= all == (set id | id in rows && rows[id].owner == address)
        invariant OnceEach(ops, set id | id in all - pending :: rows[id].op)
        decreases |pending|
      {
        var id :| id in pending;
        assert forall op :: op in ops ==> op.id in all - pending;
        pending := pending - {id};
        ops := ops + [rows[id].op];
      }
      assert OwnedBy(rows, address) == set id | id in all :: rows[id].op;
    }
  }

  ghost function OwnedBy(rows: map<Text, OpRow>, address: Text): set<Op> {
    set id | id in rows && rows[id].owner == address :: rows[id].op
  }

  ghost predicate Ingested(rows: map<Text, OpRow>, accounts: map<Text, seq<Balance>>, horizon: map<Text, Fetched>, address: Text,
                           rows': map<Text, OpRow>, accounts': map<Text, seq<Balance>>) {
    if address !in horizon then rows' == rows && accounts' == accounts
    else accounts' == accounts[address := horizon[address].balances] && rows' == Persisted(rows, address, horizon[address].ops)
  }

  /** The operations of `s`, each exactly once. */
  ghost predicate OnceEach(ops: seq<Op>, s: set<Op>) {
    && (forall op :: op in ops <==> op in s)
    && (forall i, j :: 0 <= i < j < |ops| ==> ops[i].id != ops[j].id)
  }

  /** A wallet read without ingesting it again has lost exactly the operations another wallet fetched
      since: the reason the group loop loads each member right after its own ingest. */
  lemma IngestTakesShared(rows: map<Text, OpRow>, other: Text, ops: seq<Op>, wallet: Text)
    requires wallet != other
    ensures OwnedBy(Persisted(rows, other, ops), wallet)
            == set id | id in rows && rows[id].owner == wallet && id !in IdsOf(ops) :: rows[id].op
  {
    PersistedFacts(rows, other, ops);
  }

  // ----- Merging -----

  datatype Wallet = Wallet(balances: seq<Balance>, ops: seq<Op>)

  ghost function AllOps(wallets: seq<Wallet>): set<Op> {
    set w, op | w in wallets && op in w.ops :: op
  }

  ghost function AllKeys(wallets: seq<Wallet>): set<AssetKey> {
    set w, b | w in wallets && b in w.balances :: KeyOf(b)
  }

  /** First occurrence of each id wins; the sources never disagree on a record. */
  method MergeOps(wallets: seq<Wallet>, ghost record: map<Text, Op>) returns (merged: seq<Op>)
    requires forall op :: op in AllOps(wallets) ==> op.id in record && record[op.id] == op
    ensures OnceEach(merged, AllOps(wallets))
  {
    merged := [];
    var seen: set<Text> := {};
    for i := 0 to |wallets|
      invariant OnceEach(merged, AllOps(wallets[..i])) && seen == IdsOf(merged)
    {
      var ops := wallets[i].ops;
      ghost var before := AllOps(wallets[..i]);
      for j := 0 to |ops|
        invariant OnceEach(merged, before + SetOf(ops[..j])) && seen == IdsOf(merged)
      {
        assert wallets[i] in wallets && ops[j] in wallets[i].ops;
        assert ops[j] in AllOps(wallets);
        if ops[j].id in seen {
          var m :| m in merged && m.id == ops[j].id;
          MergedKnown(wallets, merged, before, ops[..j], i);
          assert m == ops[j];
        } else {
          seen := seen + {ops[j].id};
          merged := merged + [ops[j]];
        }
        assert SetOf(ops[..j + 1]) == SetOf(ops[..j]) + {ops[j]};
      }
      assert ops[..|ops|] == ops;
      assert AllOps(wallets[..i + 1]) == before + SetOf(ops) by {
        assert wallets[..i + 1] == wallets[..i] + [wallets[i]];
      }
    }
    assert wallets[..|wallets|] == wallets;
  }

  lemma MergedKnown(wallets: seq<Wallet>, merged: seq<Op>, before: set<Op>, now: seq<Op>, i: nat)
    requires i < |wallets| && before == AllOps(wallets[..i]) && now <= wallets[i].ops
    requires OnceEach(merged, before + SetOf(now))
    ensures forall op :: op in merged ==> op in AllOps(wallets)
  {
    forall op | op in merged ensures op in AllOps(wallets) {
      if op in before {
        var w :| w in wallets[..i] && op in w.ops;
        assert w in wallets;
      } else {
        assert op in wallets[i].ops && wallets[i] in wallets;
      }
    }
  }

  ghost function KeysOf(balances: seq<Balance>): set<AssetKey> {
    set b | b in balances :: KeyOf(b)
  }

  lemma KeysOfAppend(balances: seq<Balance>, b: Balance)
    ensures KeysOf(balances + [b]) == KeysOf(balances) + {KeyOf(b)}
  {
  }

  ghost predicate DistinctKeys(balances: seq<Balance>) {
    forall i, j :: 0 <= i < j < |balances| ==> KeyOf(balances[i]) != KeyOf(balances[j])
  }

  /** Every balance is one of some wallet's, as it stands. */
  ghost predicate Held(wallets: seq<Wallet>, merged: seq<Balance>) {
    forall b :: b in merged ==> exists w :: w in wallets && b in w.balances
  }

  lemma HeldAppend(wallets: seq<Wallet>, merged: seq<Balance>, i: nat, j: nat)
    requires Held(wallets, merged) && i < |wallets| && j < |wallets[i].balances|
    ensures Held(wallets, merged + [wallets[i].balances[j]])
  {
    assert wallets[i] in wallets && wallets[i].balances[j] in wallets[i].balances;
  }

  /** What is merged after `wallets[..i]` and the first `j` balances of the next wallet. */
  ghost predicate Merging(wallets: seq<Wallet>, i: nat, j: nat, merged: seq<Balance>)
    requires i < |wallets| && j <= |wallets[i].balances|
  {
    var balances := wallets[i].balances;
    && KeysOf(merged) == AllKeys(wallets[..i]) + KeysOf(balances[..j]) && DistinctKeys(merged)
    && Held(wallets, merged)
    && (|wallets| == 1 && DistinctKeys(balances) ==> merged == balances[..j])
  }

  lemma MergeNext(wallets: seq<Wallet>, i: nat, j: nat, merged: seq<Balance>)
    requires i < |wallets| && j < |wallets[i].balances| && Merging(wallets, i, j, merged)
    ensures var b := wallets[i].balances[j];
            Merging(wallets, i, j + 1, if KeyOf(b) in KeysOf(merged) then merged else merged + [b])
  {
    var balances := wallets[i].balances;
    assert balances[..j + 1] == balances[..j] + [balances[j]];
    KeysOfAppend(balances[..j], balances[j]);
    KeysOfAppend(merged, balances[j]);
    HeldAppend(wallets, merged, i, j);
    assert |wallets| == 1 ==> AllKeys(wallets[..i]) == {};
  }

  /** One balance of each asset key, as some wallet holds it. */
  method MergeBalances(wallets: seq<Wallet>) returns (merged: seq<Balance>)
    ensures KeysOf(merged) == AllKeys(wallets) && DistinctKeys(merged)
    ensures Held(wallets, merged)
    ensures |wallets| == 1 && DistinctKeys(wallets[0].balances) ==> merged == wallets[0].balances
  {
    merged := [];
    var seen: set<AssetKey> := {};
    for i := 0 to |wallets|
      invariant seen == KeysOf(merged) == AllKeys(wallets[..i]) && DistinctKeys(merged)
      invariant Held(wallets, merged)
      invariant |wallets| == 1 && DistinctKeys(wallets[0].balances) ==> merged == if i == 0 then [] else wallets[0].balances
    {
      var balances := wallets[i].balances;
      assert balances[..0] == [];
      for j := 0 to |balances|
        invariant seen == KeysOf(merged) && Merging(wallets, i, j, merged)
      {
        var key := KeyOf(balances[j]);
        MergeNext(wallets, i, j, merged);
        KeysOfAppend(merged, balances[j]);
        if key !in seen {
          seen := seen + {key};
          merged := merged + [balances[j]];
        }
      }
      assert balances[..|balances|] == balances;
      AllKeysAppend(wallets[..i], wallets[i]);
      assert wallets[..i + 1] == wallets[..i] + [wallets[i]];
    }
    assert wallets[..|wallets|] == wallets;
  }

  lemma AllKeysAppend(wallets: seq<Wallet>, w: Wallet)
    ensures AllKeys(wallets + [w]) == AllKeys(wallets) + KeysOf(w.balances)
  {
  }

  lemma AllOpsAppend(wallets: seq<Wallet>, w: Wallet)
    ensures AllOps(wallets + [w]) == AllOps(wallets) + SetOf(w.ops)
  {
  }

  // ----- The group loop -----

  /** What a group history should be: everything cached for a member before the call, and everything
      fetched for a member Horizon knows. */
  ghost function GroupOps(rows: map<Text, OpRow>, horizon: map<Text, Fetched>, members: set<Text>): set<Op> {
    (set id | id in rows && rows[id].owner in members :: rows[id].op)
    + (set a, op | a in members && a in horizon && op in horizon[a].ops :: op)
  }

  /** The asset keys of the members' accounts, as fetched or else as cached. */
  ghost function GroupKeys(accounts: map<Text, seq<Balance>>, horizon: map<Text, Fetched>, members: set<Text>): set<AssetKey> {
    (set a, b | a in members && a in horizon && b in horizon[a].balances :: KeyOf(b))
    + (set a, b | a in members && a !in horizon && a in accounts && b in accounts[a] :: KeyOf(b))
  }

  ghost function MembersOf(members: seq<Text>): set<Text> {
    set m | m in members
  }

  /** Progress of the loop after `members[..i]`: nothing foreign was collected; what was fetched for a
      visited member was collected; and what was cached for a member was collected or is still owned
      by a member to come. */
  ghost predicate Collected(rows0: map<Text, OpRow>, horizon: map<Text, Fetched>, members: seq<Text>, i: nat,
                            rows: map<Text, OpRow>, got: set<Op>)
    requires i <= |members|
  {
    var all := GroupOps(rows0, horizon, MembersOf(members));
    && got <= all
    && (forall id :: id in rows && rows[id].owner in members ==> rows[id].op in all)
    && (forall a, op :: a in members[..i] && a in horizon && op in horizon[a].ops ==> op in got)
    && (forall id :: id in rows0 && rows0[id].owner in members ==>
          rows0[id].op in got || (id in rows && rows[id].op == rows0[id].op && rows[id].owner in members[i..]))
  }

  lemma CollectOne(rows0: map<Text, OpRow>, horizon: map<Text, Fetched>, members: seq<Text>, i: nat, record: map<Text, Op>,
                   rows: map<Text, OpRow>, accounts: map<Text, seq<Balance>>, got: set<Op>,
                   rows': map<Text, OpRow>, accounts': map<Text, seq<Balance>>, loaded: set<Op>)
    requires i < |members| && Collected(rows0, horizon, members, i, rows, got)
    requires TableOk(rows, accounts) && TableOk(rows', accounts')
    requires Canonical(record, rows, horizon) && Canonical(record, rows', horizon)
    requires Ingested(rows, accounts, horizon, members[i], rows', accounts')
    requires loaded == OwnedBy(rows', members[i])
    ensures Collected(rows0, horizon, members, i + 1, rows', got + loaded)
  {
    var m, all := members[i], GroupOps(rows0, horizon, MembersOf(members));
    assert members[..i + 1] == members[..i] + [m];
    if m in horizon {
      PersistedFacts(rows, m, horizon[m].ops);
    }
    forall id | id in rows' && rows'[id].owner in members ensures rows'[id].op in all {
      if m in horizon && id in IdsOf(horizon[m].ops) {
        assert rows'[id].op in horizon[m].ops;
      }
    }
    forall a, op | a in members[..i + 1] && a in horizon && op in horizon[a].ops ensures op in got + loaded {
      if a == m {
        assert op.id in IdsOf(horizon[m].ops);
        assert rows'[op.id].op == op && rows'[op.id].owner == m;
      }
    }
    forall id | id in rows0 && rows0[id].owner in members
      ensures rows0[id].op in got + loaded || (id in rows' && rows'[id].op == rows0[id].op && rows'[id].owner in members[i + 1..])
    {
      if rows0[id].op !in got {
        KeptOrLoaded(members, i, record, rows, rows', rows'[id].owner, id);
      }
    }
  }

  /** A row still owned by a member to come is loaded now or owned by one of those after. */
  lemma KeptOrLoaded(members: seq<Text>, i: nat, record: map<Text, Op>, rows: map<Text, OpRow>, rows': map<Text, OpRow>, owner: Text, id: Text)
    requires i < |members| && id in rows && id in rows' && rows[id].owner in members[i..]
    requires id in record && rows[id].op == record[id] == rows'[id].op
    requires owner == rows'[id].owner && (owner == members[i] || owner == rows[id].owner)
    ensures rows'[id].op == rows[id].op
    ensures rows'[id].op in OwnedBy(rows', members[i]) || owner in members[i + 1..]
  {
    assert members[i..] == [members[i]] + members[i + 1..];
  }

  lemma CollectedAtEnd(rows0: map<Text, OpRow>, horizon: map<Text, Fetched>, members: seq<Text>, rows: map<Text, OpRow>, got: set<Op>)
    requires Collected(rows0, horizon, members, |members|, rows, got)
    ensures got == GroupOps(rows0, horizon, MembersOf(members))
  {
    assert members[..|members|] == members;
    forall op | op in GroupOps(rows0, horizon, MembersOf(members)) ensures op in got {
      if id :| id in rows0 && rows0[id].owner in MembersOf(members) && rows0[id].op == op {
        assert rows0[id].op in got;
      }
    }
  }

  lemma IngestKeepsCanonical(record: map<Text, Op>, rows: map<Text, OpRow>, accounts: map<Text, seq<Balance>>, horizon: map<Text, Fetched>,
                             a: Text, rows': map<Text, OpRow>, accounts': map<Text, seq<Balance>>)
    requires Canonical(record, rows, horizon) && Ingested(rows, accounts, horizon, a, rows', accounts')
    ensures Canonical(record, rows', horizon)
  {
    if a in horizon {
      PersistedFacts(rows, a, horizon[a].ops);
    }
  }

  ghost predicate Known(record: map<Text, Op>, ops: set<Op>) {
    forall op :: op in ops ==> op.id in record && record[op.id] == op
  }

  /** Everything the loop has established after `members[..i]`. */
  ghost predicate Progress(rows0: map<Text, OpRow>, accounts0: map<Text, seq<Balance>>, horizon: map<Text, Fetched>, members: seq<Text>,
                           i: nat, record: map<Text, Op>, rows: map<Text, OpRow>, accounts: map<Text, seq<Balance>>, wallets: seq<Wallet>)
    requires i <= |members|
  {
    && Canonical(record, rows, horizon)
    && Collected(rows0, horizon, members, i, rows, AllOps(wallets))
    && AllKeys(wallets) == GroupKeys(accounts0, horizon, MembersOf(members[..i]))
    && (forall a :: a !in horizon ==> (a in accounts <==> a in accounts0))
    && (forall a :: a !in horizon && a in accounts0 ==> accounts[a] == accounts0[a])
    && Known(record, AllOps(wallets))
  }

  lemma ProgressStep(rows0: map<Text, OpRow>, accounts0: map<Text, seq<Balance>>, horizon: map<Text, Fetched>, members: seq<Text>,
                     i: nat, record: map<Text, Op>, rows: map<Text, OpRow>, accounts: map<Text, seq<Balance>>, wallets: seq<Wallet>,
                     rows': map<Text, OpRow>, accounts': map<Text, seq<Balance>>, w: Wallet)
    requires i < |members| && Progress(rows0, accounts0, horizon, members, i, record, rows, accounts, wallets)
    requires TableOk(rows, accounts) && TableOk(rows', accounts')
    requires Ingested(rows, accounts, horizon, members[i], rows', accounts')
    requires OnceEach(w.ops, OwnedBy(rows', members[i]))
    requires w.balances == if members[i] in accounts' then accounts'[members[i]] else []
    ensures Progress(rows0, accounts0, horizon, members, i + 1, record, rows', accounts', wallets + [w])
  {
    IngestKeepsCanonical(record, rows, accounts, horizon, members[i], rows', accounts');
    assert SetOf(w.ops) == OwnedBy(rows', members[i]);
    CollectOne(rows0, horizon, members, i, record, rows, accounts, AllOps(wallets), rows', accounts', SetOf(w.ops));
    AllOpsAppend(wallets, w);
    AllKeysAppend(wallets, w);
    KeysOfMember(accounts0, horizon, members, i, w.balances);
  }

  datatype Group = EmptyGroup | Merged(ops: seq<Op>, balances: seq<Balance>)

  /** `attest_group` up to scoring: an empty member list is refused; otherwise the merged history is
      every operation cached for a member before the call and every one fetched for a member Horizon
      knows, each exactly once, whatever the owner column went through. */
  method AttestGroup(cache: Cache, members: seq<Text>, horizon: map<Text, Fetched>, ghost record: map<Text, Op>) returns (g: Group)
    requires TableOk(cache.rows, cache.accounts) && Canonical(record, cache.rows, horizon)
    modifies cache
    ensures TableOk(cache.rows, cache.accounts)
    ensures g.EmptyGroup? <==> members == []
    ensures g.Merged? ==> OnceEach(g.ops, GroupOps(old(cache.rows), horizon, MembersOf(members)))
    ensures g.Merged? ==> KeysOf(g.balances) == GroupKeys(old(cache.accounts), horizon, MembersOf(members)) && DistinctKeys(g.balances)
  {
    if members == [] { return EmptyGroup; }
    ghost var rows0, accounts0 := cache.rows, cache.accounts;
    var wallets: seq<Wallet> := [];
    for i := 0 to |members|
      invariant TableOk(cache.rows, cache.accounts)
      invariant Progress(rows0, accounts0, horizon, members, i, record, cache.rows, cache.accounts, wallets)
    {
      ghost var rows, accounts := cache.rows, cache.accounts;
      var _ := cache.IngestWallet(members[i], horizon);
      var found, balances, ops := cache.Load(members[i]);
      ProgressStep(rows0, accounts0, horizon, members, i, record, rows, accounts, wallets, cache.rows, cache.accounts, Wallet(balances, ops));
      wallets := wallets + [Wallet(balances, ops)];
    }
    assert members[..|members|] == members;
    CollectedAtEnd(rows0, horizon, members, cache.rows, AllOps(wallets));
    var ops := MergeOps(wallets, record);
    var balances := MergeBalances(wallets);
    return Merged(ops, balances);
  }

  lemma KeysOfMember(accounts0: map<Text, seq<Balance>>, horizon: map<Text, Fetched>, members: seq<Text>, i: nat, balances: seq<Balance>)
    requires i < |members|
    requires balances == if members[i] in horizon then horizon[members[i]].balances else if members[i] in accounts0 then accounts0[members[i]] else []
    ensures GroupKeys(accounts0, horizon, MembersOf(members[..i + 1])) == GroupKeys(accounts0, horizon, MembersOf(members[..i])) + KeysOf(balances)
  {
    assert members[..i + 1] == members[..i] + [members[i]];
    assert MembersOf(members[..i + 1]) == MembersOf(members[..i]) + {members[i]};
  }

  // ----- Order -----

  /** Two histories holding the same operations once each are permutations of each other. */
  lemma {:induction false} OnceEachIsPermutation(a: seq<Op>, b: seq<Op>, s: set<Op>)
    requires OnceEach(a, s) && OnceEach(b, s)
    ensures multiset(a) == multiset(b)
  {
    forall op ensures multiset(a)[op] == multiset(b)[op] {
      CountInOnce(a, s, op);
      CountInOnce(b, s, op);
    }
  }

  lemma {:induction false} CountInOnce(a: seq<Op>, s: set<Op>, op: Op)
    requires OnceEach(a, s)
    ensures multiset(a)[op] == if op in s then 1 else 0
    decreases |a|
  {
    if a != [] {
      var front, last := a[..|a| - 1], a[|a| - 1];
      assert a == front + [last];
      forall i | 0 <= i < |front| ensures front[i] != last {
        assert a[i].id != a[|a| - 1].id;
      }
      CountInOnce(front, s - {last}, op);
    }
  }
}
