/** The off-chain KYC flow beside the chain.  Webhook handlers interleave at every database access
    and at every event of their bind transaction, which may land long after its handler gave up.
    The chain is the WalletIdentity store; only handlers call `bind_kyc`, everything else may happen
    to it at any time. */
module KycProtocol {
  import opened Common
  import WI = WalletIdentity

  type Text = string

  datatype Row = Row(commitment: Text, nullifier: Option<Nullifier>, status: Text, createdAt: nat, bindTx: Option<nat>)

  // ----- The table -----

  /** The row holding a nullifier (the column is unique). */
  function Find(rows: seq<Row>, n: Nullifier): (r: Option<nat>)
    ensures r.Some? ==> r.value < |rows| && rows[r.value].nullifier == Some(n)
    ensures r.None? ==> forall i :: 0 <= i < |rows| ==> rows[i].nullifier != Some(n)
  {
    if rows == [] then None
    else if rows[|rows| - 1].nullifier == Some(n) then Some(|rows| - 1)
    else Find(rows[..|rows| - 1], n)
  }

  /** The latest row of a commitment, by creation time and then by id. */
  function Latest(rows: seq<Row>, c: Text): (r: Option<nat>)
    ensures r.Some? ==> r.value < |rows| && rows[r.value].commitment == c
    ensures r.Some? ==> forall i :: 0 <= i < |rows| && rows[i].commitment == c ==>
      rows[i].createdAt < rows[r.value].createdAt || (rows[i].createdAt == rows[r.value].createdAt && i <= r.value)
    ensures r.None? ==> forall i :: 0 <= i < |rows| ==> rows[i].commitment != c
  {
    if rows == [] then None
    else
      var last := |rows| - 1;
      var before := Latest(rows[..last], c);
      if rows[last].commitment == c && (before.None? || rows[before.value].createdAt <= rows[last].createdAt) then Some(last)
      else before
  }

  ghost predicate UniqueNullifiers(rows: seq<Row>) {
    forall i, j :: 0 <= i < j < |rows| && rows[i].nullifier.Some? ==> rows[i].nullifier != rows[j].nullifier
  }

  datatype Recorded = Inserted | DuplicateNullifier | IntegrityError

  /** What the first query of `record_verification` decides. */
  function SelectSaysDuplicate(rows: seq<Row>, c: Text, n: Nullifier): bool {
    Find(rows, n).Some? && rows[Find(rows, n).value].commitment != c
  }

  /** Add and commit under the unique index. */
  function InsertRow(rows: seq<Row>, row: Row): (seq<Row>, Recorded) {
    if row.nullifier.Some? && Find(rows, row.nullifier.value).Some? then (rows, IntegrityError)
    else (rows + [row], Inserted)
  }

  /** The row `set_bind_tx` selects. */
  function MatchingRow(rows: seq<Row>, c: Text, n: Nullifier): (r: Option<nat>)
    ensures r.Some? ==> r.value < |rows| && rows[r.value].nullifier == Some(n) && rows[r.value].commitment == c
  {
    match Find(rows, n)
    case Some(i) => if rows[i].commitment == c then Some(i) else None
    case None => None
  }

  function Filled(rows: seq<Row>, i: nat, tx: nat): (r: seq<Row>)
    requires i < |rows|
    ensures |r| == |rows|
  {
    rows[i := rows[i].(bindTx := Some(tx))]
  }

  /** `kyc_status`: the latest row is approved and carries a bind transaction. */
  function Status(rows: seq<Row>, c: Text): bool {
    match Latest(rows, c)
    case Some(i) => rows[i].status == "approved" && rows[i].bindTx.Some?
    case None => false
  }

  class KycStore {
    var rows: seq<Row>

    constructor ()
      ensures rows == []
    {
      rows := [];
    }

    /** One uninterrupted `record_verification`. */
    method RecordVerification(commitment: Text, status: Text, nullifier: Option<Nullifier>, now: nat) returns (r: Recorded)
      requires UniqueNullifiers(rows)
      modifies this
      ensures UniqueNullifiers(rows)
      ensures r == DuplicateNullifier <==> nullifier.Some? && exists i :: 0 <= i < |old(rows)| && old(rows)[i].nullifier == nullifier && old(rows)[i].commitment != commitment
      ensures r == IntegrityError <==> nullifier.Some? && exists i :: 0 <= i < |old(rows)| && old(rows)[i].nullifier == nullifier && old(rows)[i].commitment == commitment
      ensures rows == if r == Inserted then old(rows) + [Row(commitment, nullifier, status, now, None)] else old(rows)
    {
      if nullifier.Some? {
        var existing := Find(rows, nullifier.value);
        if existing.Some? {
          if rows[existing.value].commitment != commitment { return DuplicateNullifier; }
          return IntegrityError;
        }
      }
      rows := rows + [Row(commitment, nullifier, status, now, None)];
      return Inserted;
    }

    method SetBindTx(commitment: Text, nullifier: Nullifier, tx: nat)
      requires UniqueNullifiers(rows)
      modifies this
      ensures var i := MatchingRow(old(rows), commitment, nullifier);
              rows == if i.Some? then Filled(old(rows), i.value, tx) else old(rows)
    {
      var i := |rows|;
      while i > 0
        invariant 0 <= i <= |rows| && rows == old(rows)
        invariant forall j :: i <= j < |rows| ==> !(rows[j].commitment == commitment && rows[j].nullifier == Some(nullifier))
      {
        i := i - 1;
        if rows[i].commitment == commitment && rows[i].nullifier == Some(nullifier) {
          assert Find(rows, nullifier) == Some(i);
          rows := rows[i := rows[i].(bindTx := Some(tx))];
          return;
        }
      }
    }

    method KycStatus(commitment: Text) returns (verified: bool)
      ensures verified == Status(rows, commitment)
    {
      var record := Latest(rows, commitment);
      if record.None? { return false; }
      return rows[record.value].status == "approved" && rows[record.value].bindTx.Some?;
    }
  }

  // ----- Handlers -----

  /** A normalized event; `document` is the nullifier of the document it carries, if any. */
  datatype Event = Event(commitment: Text, status: Text, document: Option<Nullifier>)

  datatype Pc = Selecting | Inserting | Binding | Pending | Confirmed(tx: nat) | Recording(tx: nat, target: nat) | Stopped

  /** `row` remembers which row the handler inserted with a nullifier. */
  datatype Handler = Handler(ev: Event, pc: Pc, row: Option<nat>)

  datatype System = System(
    rows: seq<Row>,
    handlers: map<nat, Handler>,
    mempool: set<nat>,
    landed: map<nat, Outcome<WI.Reply>>,
    chain: WI.Store)

  datatype Step =
    | Deliver(h: nat, ev: Event)
    | Select(h: nat)
    | Insert(h: nat, now: nat)
    | Submit(h: nat)
    | Land(h: nat, ctx: Context, attestor: Address)
    | Observe(h: nat, tx: nat)
    | FindRow(h: nat)
    | WriteTx(h: nat)
    | Stop(h: nat)
    | Elsewhere(ctx: Context, call: WI.Call)

  /** Only an approved event with a document asks for a nullifier. */
  function Wanted(ev: Event): Option<Nullifier> {
    if ev.status == "approved" then ev.document else None
  }

  /** The row an event inserts. */
  function RowFor(ev: Event, now: nat): Row {
    Row(ev.commitment, Wanted(ev), ev.status, now, None)
  }

  /** `decode` is the parsing of a commitment string into its 32 bytes. */
  datatype Env = Env(gate: WI.Gate, decode: Text -> Option<Commitment>)

  function At(s: System, h: nat, pc: Pc): System
    requires h in s.handlers
  {
    s.(handlers := s.handlers[h := s.handlers[h].(pc := pc)])
  }

  function DeliverStep(s: System, h: nat, ev: Event): System {
    if h in s.handlers then s
    else
      var pc := if ev.commitment == "" then Stopped else if Wanted(ev).Some? then Selecting else Inserting;
      s.(handlers := s.handlers[h := Handler(ev, pc, None)])
  }

  function SelectStep(s: System, h: nat): System {
    if h !in s.handlers || s.handlers[h].pc != Selecting || Wanted(s.handlers[h].ev).None? then s
    else
      var ev := s.handlers[h].ev;
      At(s, h, if SelectSaysDuplicate(s.rows, ev.commitment, Wanted(ev).value) then Stopped else Inserting)
  }

  function InsertStep(s: System, h: nat, now: nat): System {
    if h !in s.handlers || s.handlers[h].pc != Inserting then s
    else
      var ev := s.handlers[h].ev;
      var (rows, r) := InsertRow(s.rows, RowFor(ev, now));
      if r == Inserted && Wanted(ev).Some? then
        s.(rows := rows, handlers := s.handlers[h := Handler(ev, Binding, Some(|s.rows|))])
      else At(s.(rows := rows), h, Stopped)
  }

  /** The bind transaction enters the network; a commitment that does not parse raises instead. */
  function SubmitStep(env: Env, s: System, h: nat): System {
    if h !in s.handlers || s.handlers[h].pc != Binding || env.decode(s.handlers[h].ev.commitment).None? then s
    else At(s.(mempool := s.mempool + {h}), h, Pending)
  }

  /** The transaction executes, whatever its handler has done since. */
  function LandStep(env: Env, s: System, h: nat, ctx: Context, attestor: Address): System {
    if h !in s.handlers || h !in s.mempool || Wanted(s.handlers[h].ev).None? || env.decode(s.handlers[h].ev.commitment).None? then s
    else
      var ev := s.handlers[h].ev;
      var (chain, out) := WI.Bind(true, ctx, s.chain, attestor, env.decode(ev.commitment).value, Wanted(ev).value);
      s.(chain := chain, mempool := s.mempool - {h}, landed := s.landed[h := out])
  }

  function ObserveStep(s: System, h: nat, tx: nat): System {
    if h !in s.handlers || s.handlers[h].pc != Pending || h !in s.landed || !s.landed[h].Return? then s
    else At(s, h, Confirmed(tx))
  }

  /** `set_bind_tx` selects a row, then commits to that row; both are awaited. */
  function FindRowStep(s: System, h: nat): System {
    if h !in s.handlers || !s.handlers[h].pc.Confirmed? || Wanted(s.handlers[h].ev).None? then s
    else
      var ev := s.handlers[h].ev;
      var i := MatchingRow(s.rows, ev.commitment, Wanted(ev).value);
      At(s, h, if i.Some? then Recording(s.handlers[h].pc.tx, i.value) else Stopped)
  }

  function WriteTxStep(s: System, h: nat): System {
    if h !in s.handlers || !s.handlers[h].pc.Recording? || s.handlers[h].pc.target >= |s.rows| then s
    else At(s.(rows := Filled(s.rows, s.handlers[h].pc.target, s.handlers[h].pc.tx)), h, Stopped)
  }

  /** `Stop` is an exception, a timeout or a crash at any point; `Elsewhere` any other chain call. */
  function Next(env: Env, s: System, step: Step): System {
    match step
    case Deliver(h, ev) => DeliverStep(s, h, ev)
    case Select(h) => SelectStep(s, h)
    case Insert(h, now) => InsertStep(s, h, now)
    case Submit(h) => SubmitStep(env, s, h)
    case Land(h, ctx, attestor) => LandStep(env, s, h, ctx, attestor)
    case Observe(h, tx) => ObserveStep(s, h, tx)
    case FindRow(h) => FindRowStep(s, h)
    case WriteTx(h) => WriteTxStep(s, h)
    case Stop(h) => if h in s.handlers then At(s, h, Stopped) else s
    case Elsewhere(ctx, call) => if call.BindKyc? then s else s.(chain := WI.Step(true, env.gate, ctx, s.chain, call).0)
  }

  function Start(admin: Address): System {
    System([], map[], {}, map[], WI.Empty(admin))
  }

  function Run(env: Env, s: System, steps: seq<Step>): System {
    if steps == [] then s
    else Next(env, Run(env, s, steps[..|steps| - 1]), steps[|steps| - 1])
  }

  // ----- What every interleaving keeps -----

  /** Row `i` holds `n`, and the chain binds `n` to that row's commitment. */
  ghost predicate BoundAs(env: Env, rows: seq<Row>, bound: map<Nullifier, Commitment>, i: nat, n: Nullifier) {
    && i < |rows| && rows[i].nullifier == Some(n)
    && n in bound && env.decode(rows[i].commitment) == Some(bound[n])
  }

  ghost predicate RowsOk(env: Env, rows: seq<Row>, bound: map<Nullifier, Commitment>) {
    && UniqueNullifiers(rows)
    && (forall i :: 0 <= i < |rows| && rows[i].bindTx.Some? ==>
          rows[i].nullifier.Some? && BoundAs(env, rows, bound, i, rows[i].nullifier.value))
    && (forall n :: n in bound ==> exists i :: BoundAs(env, rows, bound, i, n))
  }

  /** The handler inserted row `i`, which holds its event's commitment and nullifier. */
  ghost predicate OwnsRow(rows: seq<Row>, hd: Handler, i: nat) {
    && i < |rows| && Wanted(hd.ev).Some?
    && rows[i].nullifier == Wanted(hd.ev) && rows[i].commitment == hd.ev.commitment
  }

  ghost predicate HandlerOk(env: Env, s: System, h: nat)
    requires h in s.handlers
  {
    var hd := s.handlers[h];
    && (hd.row.Some? ==> OwnsRow(s.rows, hd, hd.row.value))
    && (hd.row.None? ==> hd.pc in {Selecting, Inserting, Stopped} && h !in s.mempool && h !in s.landed)
    && (hd.pc == Binding ==> h !in s.mempool && h !in s.landed)
    && (h in s.mempool ==> h !in s.landed)
    && (h in s.landed ==> s.landed[h] != Fail(NullifierAlreadyBound))
    && (h in s.landed && s.landed[h].Return? ==> BoundAs(env, s.rows, s.chain.nullifiers, hd.row.value, Wanted(hd.ev).value))
    && (hd.pc.Confirmed? || hd.pc.Recording? ==> h in s.landed && s.landed[h].Return?)
    && (hd.pc.Recording? ==> hd.row == Some(hd.pc.target))
  }

  ghost predicate Inv(env: Env, s: System) {
    && WI.Inv(s.chain)
    && RowsOk(env, s.rows, s.chain.nullifiers)
    && s.mempool <= s.handlers.Keys && s.landed.Keys <= s.handlers.Keys
    && forall h :: h in s.handlers ==> HandlerOk(env, s, h)
  }

  /** Rows are only appended and their transaction column filled; bindings are only added. */
  ghost predicate Grows(s: System, s': System) {
    && |s.rows| <= |s'.rows|
    && (forall i :: 0 <= i < |s.rows| ==> s'.rows[i].nullifier == s.rows[i].nullifier && s'.rows[i].commitment == s.rows[i].commitment)
    && (forall n :: n in s.chain.nullifiers ==> n in s'.chain.nullifiers && s'.chain.nullifiers[n] == s.chain.nullifiers[n])
  }

  /** A step of handler `h` leaves every other handler as it was. */
  lemma OthersStayOk(env: Env, s: System, s': System, h: nat)
    requires Inv(env, s) && Grows(s, s')
    requires s'.handlers.Keys == s.handlers.Keys + {h}
    requires forall g :: g in s.handlers && g != h ==> s'.handlers[g] == s.handlers[g]
    requires forall g :: g != h ==> (g in s'.mempool <==> g in s.mempool) && (g in s'.landed <==> g in s.landed)
    requires forall g :: g != h && g in s.landed ==> s'.landed[g] == s.landed[g]
    ensures forall g :: g in s'.handlers && g != h ==> HandlerOk(env, s', g)
  {
    forall g | g in s'.handlers && g != h ensures HandlerOk(env, s', g) {
      assert HandlerOk(env, s, g);
    }
  }

  lemma AppendKeepsRowsOk(env: Env, rows: seq<Row>, bound: map<Nullifier, Commitment>, row: Row)
    requires RowsOk(env, rows, bound) && row.bindTx.None?
    requires row.nullifier.Some? ==> forall i :: 0 <= i < |rows| ==> rows[i].nullifier != row.nullifier
    ensures RowsOk(env, rows + [row], bound)
  {
    forall n | n in bound ensures exists i :: BoundAs(env, rows + [row], bound, i, n) {
      var i :| BoundAs(env, rows, bound, i, n);
      assert BoundAs(env, rows + [row], bound, i, n);
    }
  }

  lemma FillKeepsRowsOk(env: Env, rows: seq<Row>, bound: map<Nullifier, Commitment>, i: nat, n: Nullifier, tx: nat)
    requires RowsOk(env, rows, bound) && BoundAs(env, rows, bound, i, n)
    ensures RowsOk(env, Filled(rows, i, tx), bound)
  {
    var rows' := Filled(rows, i, tx);
    forall m | m in bound ensures exists j :: BoundAs(env, rows', bound, j, m) {
      var j :| BoundAs(env, rows, bound, j, m);
      assert BoundAs(env, rows', bound, j, m);
    }
  }

  /** Row `i` owns `n`, so the chain either has no binding of `n` or this row's. */
  lemma RowDecidesBinding(env: Env, rows: seq<Row>, bound: map<Nullifier, Commitment>, i: nat, n: Nullifier)
    requires RowsOk(env, rows, bound) && i < |rows| && rows[i].nullifier == Some(n) && n in bound
    ensures BoundAs(env, rows, bound, i, n)
  {
    var j :| BoundAs(env, rows, bound, j, n);
    assert i == j;
  }

  lemma BindKeepsRowsOk(env: Env, rows: seq<Row>, bound: map<Nullifier, Commitment>, i: nat, n: Nullifier, c: Commitment, bound': map<Nullifier, Commitment>)
    requires RowsOk(env, rows, bound) && i < |rows| && rows[i].nullifier == Some(n) && env.decode(rows[i].commitment) == Some(c)
    requires n !in bound && bound' == bound[n := c]
    ensures RowsOk(env, rows, bound')
  {
    forall m | m in bound' ensures exists j :: BoundAs(env, rows, bound', j, m) {
      if m == n {
        assert BoundAs(env, rows, bound', i, n);
      } else {
        var j :| BoundAs(env, rows, bound, j, m);
        assert BoundAs(env, rows, bound', j, m);
      }
    }
    forall j | 0 <= j < |rows| && rows[j].bindTx.Some?
      ensures rows[j].nullifier.Some? && BoundAs(env, rows, bound', j, rows[j].nullifier.value)
    {
      assert BoundAs(env, rows, bound, j, rows[j].nullifier.value);
    }
  }

  lemma FindUnique(rows: seq<Row>, i: nat, n: Nullifier)
    requires UniqueNullifiers(rows) && i < |rows| && rows[i].nullifier == Some(n)
    ensures Find(rows, n) == Some(i)
  {
  }

  lemma InsertKeepsInv(env: Env, s: System, h: nat, now: nat)
    requires Inv(env, s)
    ensures Inv(env, InsertStep(s, h, now))
  {
    if h in s.handlers && s.handlers[h].pc == Inserting {
      assert HandlerOk(env, s, h);
      var ev := s.handlers[h].ev;
      var row := RowFor(ev, now);
      var s' := InsertStep(s, h, now);
      if InsertRow(s.rows, row).1 == Inserted {
        AppendKeepsRowsOk(env, s.rows, s.chain.nullifiers, row);
      }
      OthersStayOk(env, s, s', h);
      assert HandlerOk(env, s', h);
    }
  }

  lemma LandedOk(env: Env, s: System, s': System, h: nat, i: nat, n: Nullifier, out: Outcome<WI.Reply>)
    requires Inv(env, s) && h in s.handlers && h in s.mempool && s.handlers[h].row == Some(i) && Wanted(s.handlers[h].ev) == Some(n)
    requires WI.Inv(s'.chain) && RowsOk(env, s'.rows, s'.chain.nullifiers)
    requires s'.rows == s.rows && s'.handlers == s.handlers && s'.mempool == s.mempool - {h} && s'.landed == s.landed[h := out]
    requires Grows(s, s') && out != Fail(NullifierAlreadyBound)
    requires out.Return? ==> BoundAs(env, s.rows, s'.chain.nullifiers, i, n)
    ensures Inv(env, s')
  {
    assert HandlerOk(env, s, h);
    OthersStayOk(env, s, s', h);
    assert HandlerOk(env, s', h);
  }

  /** A landing transaction finds its nullifier free or already bound to its own commitment. */
  lemma LandKeepsInv(env: Env, s: System, h: nat, ctx: Context, attestor: Address)
    requires Inv(env, s)
    ensures Inv(env, LandStep(env, s, h, ctx, attestor))
  {
    if h in s.handlers && h in s.mempool && Wanted(s.handlers[h].ev).Some? && env.decode(s.handlers[h].ev.commitment).Some? {
      var hd := s.handlers[h];
      var n, c := Wanted(hd.ev).value, env.decode(hd.ev.commitment).value;
      assert HandlerOk(env, s, h);
      var i := hd.row.value;
      BindAtRow(env, s.rows, s.chain, i, n, c, ctx, attestor);
      LandedOk(env, s, LandStep(env, s, h, ctx, attestor), h, i, n, WI.Bind(true, ctx, s.chain, attestor, c, n).1);
    }
  }

  lemma BindAtRow(env: Env, rows: seq<Row>, chain: WI.Store, i: nat, n: Nullifier, c: Commitment, ctx: Context, attestor: Address)
    requires WI.Inv(chain) && RowsOk(env, rows, chain.nullifiers)
    requires i < |rows| && rows[i].nullifier == Some(n) && env.decode(rows[i].commitment) == Some(c)
    ensures var (chain', out) := WI.Bind(true, ctx, chain, attestor, c, n);
            && WI.Inv(chain') && RowsOk(env, rows, chain'.nullifiers)
            && (forall m :: m in chain.nullifiers ==> m in chain'.nullifiers && chain'.nullifiers[m] == chain.nullifiers[m])
            && out != Fail(NullifierAlreadyBound)
            && (out.Return? ==> BoundAs(env, rows, chain'.nullifiers, i, n))
  {
    if n in chain.nullifiers {
      RowDecidesBinding(env, rows, chain.nullifiers, i, n);
    }
    var (chain', out) := WI.Bind(true, ctx, chain, attestor, c, n);
    WI.BindKeepsInv(true, ctx, chain, attestor, c, n);
    BindOutcome(ctx, chain, attestor, c, n);
    if chain'.nullifiers != chain.nullifiers {
      BindKeepsRowsOk(env, rows, chain.nullifiers, i, n, c, chain'.nullifiers);
    }
  }

  lemma BindOutcome(ctx: Context, chain: WI.Store, attestor: Address, c: Commitment, n: Nullifier)
    ensures var (chain', out) := WI.Bind(true, ctx, chain, attestor, c, n);
            && (chain'.nullifiers == chain.nullifiers || (n !in chain.nullifiers && chain'.nullifiers == chain.nullifiers[n := c]))
            && (out.Return? ==> n in chain'.nullifiers && chain'.nullifiers[n] == c)
            && (out == Fail(NullifierAlreadyBound) ==> n in chain.nullifiers && chain.nullifiers[n] != c)
  {
  }

  lemma FilledGrows(s: System, s': System, i: nat, tx: nat)
    requires i < |s.rows| && s'.rows == Filled(s.rows, i, tx) && s'.chain == s.chain
    ensures Grows(s, s')
  {
  }

  lemma StoppedOk(env: Env, s: System, s': System, h: nat)
    requires h in s.handlers && HandlerOk(env, s, h) && Grows(s, s')
    requires h in s'.handlers && s'.handlers[h] == s.handlers[h].(pc := Stopped)
    requires s'.mempool == s.mempool && s'.landed == s.landed
    ensures HandlerOk(env, s', h)
  {
  }

  lemma RecordedOk(env: Env, s: System, h: nat, i: nat, tx: nat)
    requires Inv(env, s) && h in s.handlers && i < |s.rows|
    requires RowsOk(env, Filled(s.rows, i, tx), s.chain.nullifiers)
    ensures var s' := At(s.(rows := Filled(s.rows, i, tx)), h, Stopped); Inv(env, s') && Grows(s, s')
  {
    var s' := At(s.(rows := Filled(s.rows, i, tx)), h, Stopped);
    FilledGrows(s, s', i, tx);
    StoppedOk(env, s, s', h);
    OthersStayOk(env, s, s', h);
  }

  /** The row a confirmed handler selects is the one it inserted. */
  lemma FindRowKeepsInv(env: Env, s: System, h: nat)
    requires Inv(env, s)
    ensures Inv(env, FindRowStep(s, h))
  {
    if h in s.handlers && s.handlers[h].pc.Confirmed? {
      assert HandlerOk(env, s, h);
      FindUnique(s.rows, s.handlers[h].row.value, Wanted(s.handlers[h].ev).value);
      MoveKeepsInv(env, s, FindRowStep(s, h), h);
    }
  }

  lemma RecordingOwnsBound(env: Env, s: System, h: nat)
    requires Inv(env, s) && h in s.handlers && s.handlers[h].pc.Recording?
    ensures var hd := s.handlers[h];
            Wanted(hd.ev).Some? && BoundAs(env, s.rows, s.chain.nullifiers, hd.pc.target, Wanted(hd.ev).value)
  {
    assert HandlerOk(env, s, h);
  }

  lemma WriteTxKeepsInv(env: Env, s: System, h: nat)
    requires Inv(env, s)
    ensures Inv(env, WriteTxStep(s, h)) && Grows(s, WriteTxStep(s, h))
  {
    if h in s.handlers && s.handlers[h].pc.Recording? {
      RecordingOwnsBound(env, s, h);
      var hd := s.handlers[h];
      FillKeepsRowsOk(env, s.rows, s.chain.nullifiers, hd.pc.target, Wanted(hd.ev).value, hd.pc.tx);
      RecordedOk(env, s, h, hd.pc.target, hd.pc.tx);
    }
  }

  lemma ElsewhereKeepsInv(env: Env, s: System, ctx: Context, call: WI.Call)
    requires Inv(env, s) && !call.BindKyc?
    ensures Inv(env, Next(env, s, Elsewhere(ctx, call)))
  {
    WI.StepKeepsInv(true, env.gate, ctx, s.chain, call);
    var s' := Next(env, s, Elsewhere(ctx, call));
    ElsewhereLeavesBindings(env.gate, ctx, s.chain, call);
    forall g | g in s'.handlers ensures HandlerOk(env, s', g) {
      assert HandlerOk(env, s, g);
    }
  }

  lemma ElsewhereLeavesBindings(gate: WI.Gate, ctx: Context, chain: WI.Store, call: WI.Call)
    requires !call.BindKyc?
    ensures WI.Step(true, gate, ctx, chain, call).0.nullifiers == chain.nullifiers
  {
  }

  /** The steps that only move a handler's program counter. */
  lemma MoveKeepsInv(env: Env, s: System, s': System, h: nat)
    requires Inv(env, s)
    requires s'.rows == s.rows && s'.chain == s.chain && s'.landed == s.landed
    requires s'.handlers.Keys == s.handlers.Keys + {h}
    requires forall g :: g in s.handlers && g != h ==> s'.handlers[g] == s.handlers[g]
    requires s'.mempool == s.mempool || s'.mempool == s.mempool + {h}
    requires HandlerOk(env, s', h)
    ensures Inv(env, s')
  {
    OthersStayOk(env, s, s', h);
  }

  lemma MovingKeepsInv(env: Env, s: System, step: Step)
    requires Inv(env, s) && (step.Select? || step.Submit? || step.Observe? || step.Stop?)
    ensures Inv(env, Next(env, s, step))
  {
    var s' := Next(env, s, step);
    if s' != s {
      assert HandlerOk(env, s, step.h);
      MoveKeepsInv(env, s, s', step.h);
    }
  }

  lemma NextKeepsInv(env: Env, s: System, step: Step)
    requires Inv(env, s)
    ensures Inv(env, Next(env, s, step))
  {
    match step
    case Insert(h, now) => InsertKeepsInv(env, s, h, now);
    case Land(h, ctx, attestor) => LandKeepsInv(env, s, h, ctx, attestor);
    case FindRow(h) => FindRowKeepsInv(env, s, h);
    case WriteTx(h) => WriteTxKeepsInv(env, s, h);
    case Elsewhere(ctx, call) => if !call.BindKyc? { ElsewhereKeepsInv(env, s, ctx, call); }
    case Deliver(h, ev) => if h !in s.handlers { MoveKeepsInv(env, s, DeliverStep(s, h, ev), h); }
    case _ => MovingKeepsInv(env, s, step);
  }

  lemma {:induction false} RunKeepsInv(env: Env, s: System, steps: seq<Step>)
    requires Inv(env, s)
    ensures Inv(env, Run(env, s, steps))
  {
    if steps != [] {
      RunKeepsInv(env, s, steps[..|steps| - 1]);
      NextKeepsInv(env, Run(env, s, steps[..|steps| - 1]), steps[|steps| - 1]);
    }
  }

  /** Under every interleaving: a row with a bind transaction has its nullifier bound on chain to
      that row's commitment, and no handler's transaction ever comes back `NullifierAlreadyBound`. */
  lemma BindTxMeansBound(env: Env, admin: Address, steps: seq<Step>)
    ensures var s := Run(env, Start(admin), steps);
            && (forall i :: 0 <= i < |s.rows| && s.rows[i].bindTx.Some? ==>
                  s.rows[i].nullifier.Some? && BoundAs(env, s.rows, s.chain.nullifiers, i, s.rows[i].nullifier.value))
            && (forall h :: h in s.landed ==> s.landed[h] != Fail(NullifierAlreadyBound))
  {
    RunKeepsInv(env, Start(admin), steps);
    var s := Run(env, Start(admin), steps);
    forall h | h in s.landed ensures s.landed[h] != Fail(NullifierAlreadyBound) {
      assert HandlerOk(env, s, h);
    }
  }

  lemma StatusIsBound(env: Env, s: System, c: Text) returns (n: Nullifier)
    requires Inv(env, s) && Status(s.rows, c)
    ensures env.decode(c).Some? && n in s.chain.nullifiers && s.chain.nullifiers[n] == env.decode(c).value
  {
    var i := Latest(s.rows, c).value;
    n := s.rows[i].nullifier.value;
    assert BoundAs(env, s.rows, s.chain.nullifiers, i, n);
  }

  /** Under every interleaving a true status means the chain has the group KYC-verified. */
  lemma StatusMeansVerified(env: Env, admin: Address, steps: seq<Step>, c: Text)
    requires Status(Run(env, Start(admin), steps).rows, c)
    ensures var s := Run(env, Start(admin), steps);
            env.decode(c).Some? && WI.Get(s.chain.kycVerified, env.decode(c).value, false)
  {
    RunKeepsInv(env, Start(admin), steps);
    var s := Run(env, Start(admin), steps);
    var n := StatusIsBound(env, s, c);
    assert s.chain.nullifiers[n] in s.chain.nullifiers.Values;
  }

  // ----- When a status is true -----

  /** What every row was recorded with: only an approved event's row holds a nullifier, and no row is
      without a commitment; a handler past its delivery has one to record. */
  ghost predicate Recordable(s: System) {
    && (forall i :: 0 <= i < |s.rows| ==> s.rows[i].commitment != "" && (s.rows[i].nullifier.Some? ==> s.rows[i].status == "approved"))
    && (forall h :: h in s.handlers && s.handlers[h].pc in {Selecting, Inserting} ==> s.handlers[h].ev.commitment != "")
  }

  lemma NextKeepsRecordable(env: Env, s: System, step: Step)
    requires Recordable(s)
    ensures Recordable(Next(env, s, step))
  {
    match step
    case Insert(h, now) => InsertKeepsRecordable(s, h, now);
    case WriteTx(h) => WriteKeepsRecordable(s, h);
    case _ =>
      OnlyInsertAndWriteTouchRows(env, s, step);
      OthersKeepRecordable(env, s, step);
  }

  lemma InsertKeepsRecordable(s: System, h: nat, now: nat)
    requires Recordable(s)
    ensures Recordable(InsertStep(s, h, now))
  {
  }

  lemma WriteKeepsRecordable(s: System, h: nat)
    requires Recordable(s)
    ensures Recordable(WriteTxStep(s, h))
  {
  }

  lemma OthersKeepRecordable(env: Env, s: System, step: Step)
    requires Recordable(s) && !step.Insert? && !step.WriteTx?
    ensures var s' := Next(env, s, step);
            forall h :: h in s'.handlers && s'.handlers[h].pc in {Selecting, Inserting} ==> s'.handlers[h].ev.commitment != ""
  {
  }

  lemma {:induction false} RunKeepsRecordable(env: Env, s: System, steps: seq<Step>)
    requires Recordable(s)
    ensures Recordable(Run(env, s, steps))
  {
    if steps != [] {
      RunKeepsRecordable(env, s, steps[..|steps| - 1]);
      NextKeepsRecordable(env, Run(env, s, steps[..|steps| - 1]), steps[|steps| - 1]);
    }
  }

  /** In every reachable state a commitment's status is true exactly when its newest row carries a
      transaction. */
  lemma StatusIff(env: Env, admin: Address, steps: seq<Step>, c: Text)
    ensures var rows := Run(env, Start(admin), steps).rows;
            Status(rows, c) <==> Latest(rows, c).Some? && rows[Latest(rows, c).value].bindTx.Some?
  {
    RunKeepsInv(env, Start(admin), steps);
    RunKeepsRecordable(env, Start(admin), steps);
  }

  /** A false status turns true exactly when a handler writes the transaction into the commitment's
      newest row. */
  lemma StatusTurnsTrueIff(env: Env, s: System, c: Text, step: Step)
    requires Inv(env, s) && Recordable(s) && !Status(s.rows, c)
    ensures Status(Next(env, s, step).rows, c)
            <==> step.WriteTx? && step.h in s.handlers && s.handlers[step.h].pc.Recording? && Latest(s.rows, c) == Some(s.handlers[step.h].pc.target)
  {
    match step
    case Insert(h, now) => InsertLeavesFalse(s, c, h, now);
    case WriteTx(h) => WriteTurnsTrueIff(env, s, c, h);
    case _ => OnlyInsertAndWriteTouchRows(env, s, step);
  }

  lemma InsertLeavesFalse(s: System, c: Text, h: nat, now: nat)
    requires !Status(s.rows, c)
    ensures !Status(InsertStep(s, h, now).rows, c)
  {
    if h in s.handlers && s.handlers[h].pc == Inserting {
      var row := RowFor(s.handlers[h].ev, now);
      assert (s.rows + [row])[..|s.rows|] == s.rows;
      assert InsertStep(s, h, now).rows == InsertRow(s.rows, row).0;
    }
  }

  lemma WriteTurnsTrueIff(env: Env, s: System, c: Text, h: nat)
    requires Inv(env, s) && Recordable(s) && !Status(s.rows, c)
    ensures Status(WriteTxStep(s, h).rows, c)
            <==> h in s.handlers && s.handlers[h].pc.Recording? && Latest(s.rows, c) == Some(s.handlers[h].pc.target)
  {
    if h in s.handlers && s.handlers[h].pc.Recording? {
      assert HandlerOk(env, s, h);
      LatestIgnoresTx(s.rows, s.handlers[h].pc.target, s.handlers[h].pc.tx, c);
    }
  }

  /** What one handler does with one approved event, nothing else happening. */
  function HandlerRun(h: nat, c: Text, n: Nullifier, now: nat, ctx: Context, attestor: Address, tx: nat): seq<Step> {
    [Deliver(h, Event(c, "approved", Some(n))), Select(h), Insert(h, now)]
    + [Submit(h), Land(h, ctx, attestor), Observe(h, tx)]
    + [FindRow(h), WriteTx(h)]
  }

  /** The states it passes from an empty table on. */
  function Handled(h: nat, c: Text, n: Nullifier, now: nat, bindTx: Option<nat>, pc: Pc, landed: map<nat, Outcome<WI.Reply>>, chain: WI.Store): System {
    System([Row(c, Some(n), "approved", now, bindTx)], map[h := Handler(Event(c, "approved", Some(n)), pc, Some(0))], {}, landed, chain)
  }

  function Untouched(chain: WI.Store): System {
    System([], map[], {}, map[], chain)
  }

  lemma HandledInsert(env: Env, h: nat, c: Text, n: Nullifier, now: nat, chain: WI.Store)
    requires c != ""
    ensures Run(env, Untouched(chain), [Deliver(h, Event(c, "approved", Some(n))), Select(h), Insert(h, now)])
            == Handled(h, c, n, now, None, Binding, map[], chain)
  {
    ThreeSteps(env, Untouched(chain), Deliver(h, Event(c, "approved", Some(n))), Select(h), Insert(h, now));
  }

  lemma HandledBind(env: Env, h: nat, c: Text, n: Nullifier, now: nat, chain: WI.Store, ctx: Context, attestor: Address, tx: nat, bound: WI.Store)
    requires env.decode(c).Some? && WI.Bind(true, ctx, chain, attestor, env.decode(c).value, n) == (bound, Return(WI.Done))
    ensures Run(env, Handled(h, c, n, now, None, Binding, map[], chain), [Submit(h), Land(h, ctx, attestor), Observe(h, tx)])
            == Handled(h, c, n, now, None, Confirmed(tx), map[h := Return(WI.Done)], bound)
  {
    ThreeSteps(env, Handled(h, c, n, now, None, Binding, map[], chain), Submit(h), Land(h, ctx, attestor), Observe(h, tx));
  }

  lemma HandledRecord(env: Env, h: nat, c: Text, n: Nullifier, now: nat, chain: WI.Store, tx: nat)
    ensures Run(env, Handled(h, c, n, now, None, Confirmed(tx), map[h := Return(WI.Done)], chain), [FindRow(h), WriteTx(h)])
            == Handled(h, c, n, now, Some(tx), Stopped, map[h := Return(WI.Done)], chain)
  {
    TwoSteps(env, Handled(h, c, n, now, None, Confirmed(tx), map[h := Return(WI.Done)], chain), FindRow(h), WriteTx(h));
    HandledFind(h, c, n, now, chain, tx);
    HandledWrite(h, c, n, now, chain, tx);
  }

  lemma HandledWrite(h: nat, c: Text, n: Nullifier, now: nat, chain: WI.Store, tx: nat)
    ensures WriteTxStep(Handled(h, c, n, now, None, Recording(tx, 0), map[h := Return(WI.Done)], chain), h)
            == Handled(h, c, n, now, Some(tx), Stopped, map[h := Return(WI.Done)], chain)
  {
  }

  lemma HandledFind(h: nat, c: Text, n: Nullifier, now: nat, chain: WI.Store, tx: nat)
    ensures FindRowStep(Handled(h, c, n, now, None, Confirmed(tx), map[h := Return(WI.Done)], chain), h)
            == Handled(h, c, n, now, None, Recording(tx, 0), map[h := Return(WI.Done)], chain)
  {
    assert Find([Row(c, Some(n), "approved", now, None)], n) == Some(0);
  }

  /** Where the chain lets the bind through, the event ends as one approved row with its transaction. */
  lemma HandlerRunRecords(env: Env, h: nat, c: Text, n: Nullifier, now: nat, chain: WI.Store, ctx: Context, attestor: Address, tx: nat, bound: WI.Store)
    requires c != "" && env.decode(c).Some? && WI.Bind(true, ctx, chain, attestor, env.decode(c).value, n) == (bound, Return(WI.Done))
    ensures Run(env, Untouched(chain), HandlerRun(h, c, n, now, ctx, attestor, tx)) == Handled(h, c, n, now, Some(tx), Stopped, map[h := Return(WI.Done)], bound)
  {
    var first := [Deliver(h, Event(c, "approved", Some(n))), Select(h), Insert(h, now)];
    var second, third := [Submit(h), Land(h, ctx, attestor), Observe(h, tx)], [FindRow(h), WriteTx(h)];
    HandledInsert(env, h, c, n, now, chain);
    RunJoins(env, Untouched(chain), first, second);
    HandledBind(env, h, c, n, now, chain, ctx, attestor, tx, bound);
    RunJoins(env, Untouched(chain), first + second, third);
    HandledRecord(env, h, c, n, now, bound, tx);
  }

  lemma OneStep(env: Env, s: System, a: Step)
    ensures Run(env, s, [a]) == Next(env, s, a)
  {
    var steps := [a];
    assert steps[..|steps| - 1] == [];
    assert Run(env, s, steps[..|steps| - 1]) == s;
  }

  lemma WiredStart(env: Env, admin: Address)
    ensures var open := Context({admin}, {admin});
            Run(env, Start(admin), [Elsewhere(open, WI.SetAttestorRegistry)]) == Untouched(WI.Empty(admin).(registryWired := true))
  {
    OneStep(env, Start(admin), Elsewhere(Context({admin}, {admin}), WI.SetAttestorRegistry));
  }

  /** From the start, with the registry wired and the admin listed: the row carries its transaction, the
      nullifier is bound to the commitment on chain, and the status is true. */
  lemma ApprovedRunIsVerified(env: Env, admin: Address, h: nat, c: Text, n: Nullifier, now: nat, tx: nat)
    requires c != "" && env.decode(c).Some?
    ensures var open := Context({admin}, {admin});
            var s := Run(env, Start(admin), [Elsewhere(open, WI.SetAttestorRegistry)] + HandlerRun(h, c, n, now, open, admin, tx));
            && s.rows == [Row(c, Some(n), "approved", now, Some(tx))] && s.chain.nullifiers == map[n := env.decode(c).value]
            && Status(s.rows, c)
  {
    var open := Context({admin}, {admin});
    var wire, chain := Elsewhere(open, WI.SetAttestorRegistry), WI.Empty(admin).(registryWired := true);
    WiredStart(env, admin);
    RunJoins(env, Start(admin), [wire], HandlerRun(h, c, n, now, open, admin, tx));
    HandlerRunRecords(env, h, c, n, now, chain, open, admin, tx, WI.Bind(true, open, chain, admin, env.decode(c).value, n).0);
  }

  /** The query of an approved event stops it exactly when another commitment's row holds its nullifier. */
  lemma SelectStopsIff(env: Env, admin: Address, steps: seq<Step>, h: nat, n: Nullifier)
    requires var s := Run(env, Start(admin), steps); h in s.handlers && s.handlers[h].pc == Selecting && Wanted(s.handlers[h].ev) == Some(n)
    ensures var s := Run(env, Start(admin), steps);
            var s' := Next(env, s, Select(h));
            && h in s'.handlers && s'.handlers[h].pc in {Inserting, Stopped} && s'.rows == s.rows
            && (s'.handlers[h].pc == Stopped
                <==> exists i :: 0 <= i < |s.rows| && s.rows[i].nullifier == Some(n) && s.rows[i].commitment != s.handlers[h].ev.commitment)
  {
    RunKeepsInv(env, Start(admin), steps);
    var s := Run(env, Start(admin), steps);
    if i :| 0 <= i < |s.rows| && s.rows[i].nullifier == Some(n) && s.rows[i].commitment != s.handlers[h].ev.commitment {
      FindUnique(s.rows, i, n);
    }
  }

  // ----- When a true status lasts -----

  lemma {:induction false} LatestIgnoresTx(rows: seq<Row>, i: nat, tx: nat, c: Text)
    requires i < |rows|
    ensures Latest(Filled(rows, i, tx), c) == Latest(rows, c)
  {
    var last := |rows| - 1;
    if i == last {
      assert Filled(rows, i, tx)[..last] == rows[..last];
    } else {
      LatestIgnoresTx(rows[..last], i, tx, c);
      assert Filled(rows, i, tx)[..last] == Filled(rows[..last], i, tx);
    }
  }

  /** The row is of the commitment and at least as new as its latest. */
  ghost predicate Supersedes(rows: seq<Row>, c: Text, row: Row) {
    row.commitment == c && Latest(rows, c).Some? && row.createdAt >= rows[Latest(rows, c).value].createdAt
  }

  /** The step commits a row that supersedes the commitment's latest. */
  ghost predicate Hides(s: System, c: Text, step: Step) {
    && step.Insert? && step.h in s.handlers && s.handlers[step.h].pc == Inserting
    && InsertRow(s.rows, RowFor(s.handlers[step.h].ev, step.now)).1 == Inserted
    && Supersedes(s.rows, c, RowFor(s.handlers[step.h].ev, step.now))
  }

  lemma StatusAfterAppend(rows: seq<Row>, row: Row, c: Text)
    requires Status(rows, c) && row.bindTx.None?
    ensures Status(rows + [row], c) <==> !Supersedes(rows, c, row)
  {
    assert (rows + [row])[..|rows|] == rows;
  }

  lemma InsertLastsIff(s: System, c: Text, h: nat, now: nat)
    requires Status(s.rows, c)
    ensures Status(InsertStep(s, h, now).rows, c) <==> !Hides(s, c, Insert(h, now))
  {
    if h in s.handlers && s.handlers[h].pc == Inserting {
      var row := RowFor(s.handlers[h].ev, now);
      StatusAfterAppend(s.rows, row, c);
      assert InsertStep(s, h, now).rows == InsertRow(s.rows, row).0;
    }
  }

  lemma WriteLasts(s: System, c: Text, h: nat)
    requires Status(s.rows, c)
    ensures Status(WriteTxStep(s, h).rows, c)
  {
    if h in s.handlers && s.handlers[h].pc.Recording? && s.handlers[h].pc.target < |s.rows| {
      LatestIgnoresTx(s.rows, s.handlers[h].pc.target, s.handlers[h].pc.tx, c);
    }
  }

  lemma OnlyInsertAndWriteTouchRows(env: Env, s: System, step: Step)
    requires !step.Insert? && !step.WriteTx?
    ensures Next(env, s, step).rows == s.rows
  {
  }

  /** A true status turns false exactly by such a step, whatever the status of the new row. */
  lemma StatusLastsIff(env: Env, s: System, c: Text, step: Step)
    requires Status(s.rows, c)
    ensures Status(Next(env, s, step).rows, c) <==> !Hides(s, c, step)
  {
    match step
    case Insert(h, now) => InsertLastsIff(s, c, h, now);
    case WriteTx(h) => WriteLasts(s, c, h);
    case _ => OnlyInsertAndWriteTouchRows(env, s, step);
  }

  /** The same at one point of a run. */
  lemma StatusLastsAt(env: Env, s: System, c: Text, steps: seq<Step>, k: nat)
    requires k < |steps| && Status(Run(env, s, steps[..k]).rows, c)
    ensures Status(Run(env, s, steps[..k + 1]).rows, c) <==> !Hides(Run(env, s, steps[..k]), c, steps[k])
  {
    StatusLastsIff(env, Run(env, s, steps[..k]), c, steps[k]);
    assert steps[..k + 1][..k] == steps[..k];
  }

  ghost predicate TrueAt(env: Env, s: System, c: Text, steps: seq<Step>, k: nat)
    requires k <= |steps|
  {
    Status(Run(env, s, steps[..k]).rows, c)
  }

  ghost predicate HiddenAt(env: Env, s: System, c: Text, steps: seq<Step>, k: nat)
    requires k < |steps|
  {
    Hides(Run(env, s, steps[..k]), c, steps[k])
  }

  /** Over every interleaving: a true status stays true throughout exactly when no such step occurs. */
  lemma StatusLastsThroughIff(env: Env, s: System, c: Text, steps: seq<Step>)
    requires Status(s.rows, c)
    ensures (forall k :: 0 <= k <= |steps| ==> TrueAt(env, s, c, steps, k))
            <==> (forall k :: 0 <= k < |steps| ==> !HiddenAt(env, s, c, steps, k))
  {
    if forall k :: 0 <= k < |steps| ==> !HiddenAt(env, s, c, steps, k) {
      forall k | 0 <= k <= |steps| ensures TrueAt(env, s, c, steps, k) {
        StatusLastsUpTo(env, s, c, steps, k);
      }
    }
    if forall k :: 0 <= k <= |steps| ==> TrueAt(env, s, c, steps, k) {
      forall k | 0 <= k < |steps| ensures !HiddenAt(env, s, c, steps, k) {
        assert TrueAt(env, s, c, steps, k) && TrueAt(env, s, c, steps, k + 1);
        StatusLastsAt(env, s, c, steps, k);
      }
    }
  }

  lemma {:induction false} StatusLastsUpTo(env: Env, s: System, c: Text, steps: seq<Step>, k: nat)
    requires Status(s.rows, c) && k <= |steps|
    requires forall j :: 0 <= j < |steps| ==> !HiddenAt(env, s, c, steps, j)
    ensures TrueAt(env, s, c, steps, k)
  {
    if k > 0 {
      StatusLastsUpTo(env, s, c, steps, k - 1);
      StatusLastsAt(env, s, c, steps, k - 1);
      assert !HiddenAt(env, s, c, steps, k - 1);
    }
  }

  lemma TwoSteps(env: Env, s: System, a: Step, b: Step)
    ensures Run(env, s, [a, b]) == Next(env, Next(env, s, a), b)
  {
    OneStep(env, s, a);
    assert [a, b][..1] == [a];
  }

  lemma ThreeSteps(env: Env, s: System, a: Step, b: Step, c: Step)
    ensures Run(env, s, [a, b, c]) == Next(env, Next(env, Next(env, s, a), b), c)
  {
    TwoSteps(env, s, a, b);
    assert [a, b, c][..2] == [a, b];
  }

  /** Two ways this happens while the chain keeps the group verified: a declined event, */
  lemma LaterDeclineHidesKyc(env: Env, s: System, h: nat, c: Text, now: nat)
    requires Status(s.rows, c) && c != "" && h !in s.handlers
    requires now >= s.rows[Latest(s.rows, c).value].createdAt
    ensures var s' := Run(env, s, [Deliver(h, Event(c, "declined", None)), Insert(h, now)]);
            !Status(s'.rows, c) && s'.chain == s.chain
  {
    var d, i := Deliver(h, Event(c, "declined", None)), Insert(h, now);
    TwoSteps(env, s, d, i);
    InsertLastsIff(Next(env, s, d), c, h, now);
  }

  /** and an approved one with a fresh document, until its own transaction is recorded. */
  lemma LaterApprovalHidesKyc(env: Env, s: System, h: nat, c: Text, n: Nullifier, now: nat)
    requires Status(s.rows, c) && c != "" && h !in s.handlers && Find(s.rows, n).None?
    requires now >= s.rows[Latest(s.rows, c).value].createdAt
    ensures var s' := Run(env, s, [Deliver(h, Event(c, "approved", Some(n))), Select(h), Insert(h, now)]);
            !Status(s'.rows, c) && s'.chain == s.chain
  {
    var d, q, i := Deliver(h, Event(c, "approved", Some(n))), Select(h), Insert(h, now);
    ThreeSteps(env, s, d, q, i);
    var s2 := Next(env, Next(env, s, d), q);
    assert s2.rows == s.rows && s2.chain == s.chain && s2.handlers[h] == Handler(Event(c, "approved", Some(n)), Inserting, None);
    InsertLastsIff(s2, c, h, now);
  }

  // ----- When a kept nullifier can still be bound -----

  /** The handler has a parsing commitment for `n` and is about to submit its transaction, or that is
      still in flight, whatever became of the handler since. */
  ghost predicate MayBind(env: Env, s: System, h: nat, n: Nullifier) {
    && h in s.handlers && Wanted(s.handlers[h].ev) == Some(n) && env.decode(s.handlers[h].ev.commitment).Some?
    && (h in s.mempool || s.handlers[h].pc == Binding)
  }

  /** Row `i` holds `n`, the chain does not, and no handler may still bind it. */
  ghost predicate Abandoned(env: Env, s: System, i: nat, n: Nullifier) {
    && i < |s.rows| && s.rows[i].nullifier == Some(n)
    && n !in s.chain.nullifiers
    && forall h :: !MayBind(env, s, h, n)
  }

  lemma AbandonedIsStable(env: Env, s: System, i: nat, n: Nullifier, step: Step)
    requires Inv(env, s) && Abandoned(env, s, i, n)
    ensures Abandoned(env, Next(env, s, step), i, n)
  {
    match step
    case Elsewhere(ctx, call) => AbandonedByElsewhere(env, s, i, n, ctx, call);
    case Land(h, ctx, attestor) => AbandonedByLand(env, s, i, n, h, ctx, attestor);
    case Insert(h, now) => AbandonedByInsert(env, s, i, n, h, now);
    case WriteTx(h) => AbandonedByWriteTx(env, s, i, n, h);
    case _ => AbandonedByMove(env, s, i, n, step);
  }

  lemma AbandonedByElsewhere(env: Env, s: System, i: nat, n: Nullifier, ctx: Context, call: WI.Call)
    requires Abandoned(env, s, i, n)
    ensures Abandoned(env, Next(env, s, Elsewhere(ctx, call)), i, n)
  {
    var s' := Next(env, s, Elsewhere(ctx, call));
    if !call.BindKyc? {
      ElsewhereLeavesBindings(env.gate, ctx, s.chain, call);
    }
    forall h ensures !MayBind(env, s', h, n) {
      assert !MayBind(env, s, h, n);
    }
  }

  /** A handler of `n` cannot insert past row `i`, so it never reaches its bind. */
  lemma AbandonedByInsert(env: Env, s: System, i: nat, n: Nullifier, h: nat, now: nat)
    requires Abandoned(env, s, i, n)
    ensures Abandoned(env, InsertStep(s, h, now), i, n)
  {
    var s' := InsertStep(s, h, now);
    assert Find(s.rows, n).Some?;
    forall g ensures !MayBind(env, s', g, n) {
      assert !MayBind(env, s, g, n);
    }
  }

  lemma AbandonedByWriteTx(env: Env, s: System, i: nat, n: Nullifier, h: nat)
    requires Abandoned(env, s, i, n)
    ensures Abandoned(env, WriteTxStep(s, h), i, n)
  {
    var s' := WriteTxStep(s, h);
    forall g ensures !MayBind(env, s', g, n) {
      assert !MayBind(env, s, g, n);
    }
  }

  lemma AbandonedByMove(env: Env, s: System, i: nat, n: Nullifier, step: Step)
    requires s.mempool <= s.handlers.Keys && Abandoned(env, s, i, n)
    requires step.Deliver? || step.Select? || step.Submit? || step.Observe? || step.FindRow? || step.Stop?
    ensures Abandoned(env, Next(env, s, step), i, n)
  {
    var s' := Next(env, s, step);
    forall g ensures !MayBind(env, s', g, n) {
      assert !MayBind(env, s, g, n);
    }
  }

  lemma AbandonedByLand(env: Env, s: System, i: nat, n: Nullifier, h: nat, ctx: Context, attestor: Address)
    requires Abandoned(env, s, i, n)
    ensures Abandoned(env, LandStep(env, s, h, ctx, attestor), i, n)
  {
    var s' := LandStep(env, s, h, ctx, attestor);
    if s' != s {
      var ev := s.handlers[h].ev;
      assert !MayBind(env, s, h, n);
      BindOutcome(ctx, s.chain, attestor, env.decode(ev.commitment).value, Wanted(ev).value);
      forall g ensures !MayBind(env, s', g, n) {
        assert !MayBind(env, s, g, n);
      }
    }
  }

  /** Once abandoned, no later step of any kind binds the nullifier or gives its row a transaction: the
      code's "kept for retry" has no retry. */
  lemma {:induction false} FailedBindIsFinal(env: Env, s: System, steps: seq<Step>, i: nat, n: Nullifier)
    requires Inv(env, s) && Abandoned(env, s, i, n)
    ensures var s' := Run(env, s, steps); Abandoned(env, s', i, n) && s'.rows[i].bindTx.None?
  {
    RunKeepsInv(env, s, steps);
    if steps != [] {
      var front := steps[..|steps| - 1];
      FailedBindIsFinal(env, s, front, i, n);
      RunKeepsInv(env, s, front);
      AbandonedIsStable(env, Run(env, s, front), i, n, steps[|steps| - 1]);
    }
  }

  /** An environment in which a bind is let through: the registry is wired and the admin is listed. */
  function Willing(s: System): Context {
    Context({s.chain.admin}, {s.chain.admin})
  }

  function Wire(s: System): Step {
    Elsewhere(Willing(s), WI.SetAttestorRegistry)
  }

  lemma WireOnlyWires(env: Env, s: System)
    ensures Next(env, s, Wire(s)) == s.(chain := s.chain.(registryWired := true))
  {
  }

  /** In it a transaction in flight lands, and returns, unless its nullifier is bound elsewhere. */
  lemma WillingLand(env: Env, s: System, h: nat, n: Nullifier)
    requires h in s.handlers && h in s.mempool && Wanted(s.handlers[h].ev) == Some(n) && env.decode(s.handlers[h].ev.commitment).Some?
    requires n in s.chain.nullifiers ==> s.chain.nullifiers[n] == env.decode(s.handlers[h].ev.commitment).value
    ensures var s' := Next(env, Next(env, s, Wire(s)), Land(h, Willing(s), s.chain.admin));
            && n in s'.chain.nullifiers && h in s'.landed && s'.landed[h].Return?
            && s'.handlers == s.handlers && s'.rows == s.rows
  {
    WireOnlyWires(env, s);
  }

  lemma BindCanHappen(env: Env, s: System, h: nat, n: Nullifier) returns (more: seq<Step>)
    requires MayBind(env, s, h, n) && n !in s.chain.nullifiers
    ensures n in Run(env, s, more).chain.nullifiers
  {
    if h in s.mempool {
      more := [Wire(s), Land(h, Willing(s), s.chain.admin)];
      TwoSteps(env, s, more[0], more[1]);
      WillingLand(env, s, h, n);
    } else {
      more := [Submit(h), Wire(s), Land(h, Willing(s), s.chain.admin)];
      ThreeSteps(env, s, more[0], more[1], more[2]);
      WillingLand(env, Next(env, s, Submit(h)), h, n);
    }
  }

  /** A nullifier kept in a row and not yet on chain can still be bound by some run exactly when some
      handler of it, with a commitment that parses, has its transaction ahead of it or in flight. */
  lemma KeptNullifierCanBindIff(env: Env, s: System, i: nat, n: Nullifier)
    requires Inv(env, s) && i < |s.rows| && s.rows[i].nullifier == Some(n) && n !in s.chain.nullifiers
    ensures (exists more :: n in Run(env, s, more).chain.nullifiers) <==> exists h :: MayBind(env, s, h, n)
  {
    if h :| MayBind(env, s, h, n) {
      var more := BindCanHappen(env, s, h, n);
    } else {
      assert Abandoned(env, s, i, n);
      forall more ensures n !in Run(env, s, more).chain.nullifiers {
        FailedBindIsFinal(env, s, more, i, n);
      }
    }
  }

  /** A handler stopped between its insert and its bind. */
  function CrashRun(h: nat, c: Text, n: Nullifier, now: nat): seq<Step> {
    [Deliver(h, Event(c, "approved", Some(n))), Select(h), Insert(h, now)] + [Stop(h)]
  }

  lemma CrashAbandons(env: Env, admin: Address, h: nat, c: Text, n: Nullifier, now: nat)
    requires c != ""
    ensures Abandoned(env, Run(env, Start(admin), CrashRun(h, c, n, now)), 0, n)
  {
    var first, all := [Deliver(h, Event(c, "approved", Some(n))), Select(h), Insert(h, now)], CrashRun(h, c, n, now);
    ThreeSteps(env, Start(admin), first[0], first[1], first[2]);
    assert all[..3] == first;
  }

  /** Such a state is one crash away from the start, and from then on no run gives its row a
      transaction. */
  lemma StoppedBeforeBind(env: Env, admin: Address, h: nat, c: Text, n: Nullifier, now: nat, more: seq<Step>)
    requires c != ""
    ensures var s := Run(env, Run(env, Start(admin), CrashRun(h, c, n, now)), more);
            Abandoned(env, s, 0, n) && s.rows[0].bindTx.None?
  {
    CrashAbandons(env, admin, h, c, n, now);
    RunKeepsInv(env, Start(admin), CrashRun(h, c, n, now));
    FailedBindIsFinal(env, Run(env, Start(admin), CrashRun(h, c, n, now)), more, 0, n);
  }

  /** No crash is needed when the commitment does not parse: the handler reaches its bind, which raises,
      and the row is kept for good. */
  lemma UnparsedCommitmentNeverBinds(env: Env, admin: Address, h: nat, c: Text, n: Nullifier, now: nat, more: seq<Step>)
    requires c != "" && env.decode(c).None?
    ensures var s := Run(env, Start(admin), [Deliver(h, Event(c, "approved", Some(n))), Select(h), Insert(h, now)]);
            && h in s.handlers && s.handlers[h].pc == Binding && Abandoned(env, s, 0, n)
            && n !in Run(env, s, more).chain.nullifiers && Run(env, s, more).rows != [] && Run(env, s, more).rows[0].bindTx.None?
  {
    var first := [Deliver(h, Event(c, "approved", Some(n))), Select(h), Insert(h, now)];
    ThreeSteps(env, Start(admin), first[0], first[1], first[2]);
    RunKeepsInv(env, Start(admin), first);
    FailedBindIsFinal(env, Run(env, Start(admin), first), more, 0, n);
  }

  // ----- When a row can still get its transaction -----

  /** The handler inserted row `i` and can still come to write its transaction. */
  ghost predicate MayRecord(env: Env, s: System, h: nat, i: nat) {
    && h in s.handlers && s.handlers[h].row == Some(i)
    && var hd := s.handlers[h];
       || hd.pc.Recording? || hd.pc.Confirmed?
       || (hd.pc == Pending && h in s.landed && s.landed[h].Return?)
       || (hd.pc == Pending && h in s.mempool && env.decode(hd.ev.commitment).Some?)
       || (hd.pc == Binding && env.decode(hd.ev.commitment).Some?)
  }

  ghost predicate Unrecorded(env: Env, s: System, i: nat) {
    && i < |s.rows| && s.rows[i].bindTx.None?
    && forall h :: !MayRecord(env, s, h, i)
  }

  lemma NeverRecorderIsStable(env: Env, s: System, h: nat, i: nat, step: Step)
    requires i < |s.rows| && !MayRecord(env, s, h, i) && s.mempool <= s.handlers.Keys && s.landed.Keys <= s.handlers.Keys
    ensures !MayRecord(env, Next(env, s, step), h, i)
  {
  }

  lemma UnrecordedIsStable(env: Env, s: System, i: nat, step: Step)
    requires Inv(env, s) && Unrecorded(env, s, i)
    ensures Unrecorded(env, Next(env, s, step), i)
  {
    var s' := Next(env, s, step);
    forall h ensures !MayRecord(env, s', h, i) {
      assert !MayRecord(env, s, h, i);
      NeverRecorderIsStable(env, s, h, i, step);
    }
    UnrecordedRowStays(env, s, i, step);
  }

  lemma UnrecordedRowStays(env: Env, s: System, i: nat, step: Step)
    requires Inv(env, s) && Unrecorded(env, s, i)
    ensures var s' := Next(env, s, step); i < |s'.rows| && s'.rows[i].bindTx.None?
  {
    if step.WriteTx? && step.h in s.handlers {
      assert HandlerOk(env, s, step.h) && !MayRecord(env, s, step.h, i);
    } else if !step.Insert? && !step.WriteTx? {
      OnlyInsertAndWriteTouchRows(env, s, step);
    }
  }

  lemma {:induction false} UnrecordedForEver(env: Env, s: System, i: nat, steps: seq<Step>)
    requires Inv(env, s) && Unrecorded(env, s, i)
    ensures Unrecorded(env, Run(env, s, steps), i)
  {
    if steps != [] {
      var front := steps[..|steps| - 1];
      UnrecordedForEver(env, s, i, front);
      RunKeepsInv(env, s, front);
      UnrecordedIsStable(env, Run(env, s, front), i, steps[|steps| - 1]);
    }
  }

  lemma {:induction false} RunJoins(env: Env, s: System, first: seq<Step>, more: seq<Step>)
    ensures Run(env, s, first + more) == Run(env, Run(env, s, first), more)
  {
    if more == [] {
      assert first + more == first;
    } else {
      var all, front := first + more, more[..|more| - 1];
      assert all[..|all| - 1] == first + front;
      assert all[|all| - 1] == more[|more| - 1];
      RunJoins(env, s, first, front);
      LastStep(env, s, all);
      LastStep(env, Run(env, s, first), more);
    }
  }

  lemma LastStep(env: Env, s: System, steps: seq<Step>)
    requires steps != []
    ensures Run(env, s, steps) == Next(env, Run(env, s, steps[..|steps| - 1]), steps[|steps| - 1])
  {
  }

  ghost predicate HasTx(s: System, i: nat) {
    i < |s.rows| && s.rows[i].bindTx.Some?
  }

  /** From a confirmed transaction the row is found and filled. */
  lemma RecordConfirmed(env: Env, s: System, h: nat, i: nat) returns (more: seq<Step>)
    requires Inv(env, s) && h in s.handlers && s.handlers[h].row == Some(i) && (s.handlers[h].pc.Recording? || s.handlers[h].pc.Confirmed?)
    ensures HasTx(Run(env, s, more), i)
  {
    assert HandlerOk(env, s, h);
    if s.handlers[h].pc.Recording? {
      more := [WriteTx(h)];
      assert more[..0] == [] && Run(env, s, []) == s;
    } else {
      FindUnique(s.rows, i, Wanted(s.handlers[h].ev).value);
      more := [FindRow(h), WriteTx(h)];
      TwoSteps(env, s, FindRow(h), WriteTx(h));
    }
  }

  lemma RecordLanded(env: Env, s: System, h: nat, i: nat) returns (more: seq<Step>)
    requires Inv(env, s) && h in s.handlers && s.handlers[h].row == Some(i)
    requires s.handlers[h].pc == Pending && h in s.landed && s.landed[h].Return?
    ensures HasTx(Run(env, s, more), i)
  {
    var s' := Next(env, s, Observe(h, 0));
    NextKeepsInv(env, s, Observe(h, 0));
    var rest := RecordConfirmed(env, s', h, i);
    assert Run(env, s, []) == s && [Observe(h, 0)][..0] == [];
    assert Run(env, s, [Observe(h, 0)]) == s';
    RunJoins(env, s, [Observe(h, 0)], rest);
    more := [Observe(h, 0)] + rest;
  }

  lemma RecordInFlight(env: Env, s: System, h: nat, i: nat) returns (more: seq<Step>)
    requires Inv(env, s) && h in s.handlers && s.handlers[h].row == Some(i)
    requires s.handlers[h].pc == Pending && h in s.mempool && env.decode(s.handlers[h].ev.commitment).Some?
    ensures HasTx(Run(env, s, more), i)
  {
    assert HandlerOk(env, s, h);
    var n, land := Wanted(s.handlers[h].ev).value, [Wire(s), Land(h, Willing(s), s.chain.admin)];
    if n in s.chain.nullifiers {
      RowDecidesBinding(env, s.rows, s.chain.nullifiers, i, n);
    }
    WillingLand(env, s, h, n);
    TwoSteps(env, s, land[0], land[1]);
    RunKeepsInv(env, s, land);
    var rest := RecordLanded(env, Run(env, s, land), h, i);
    RunJoins(env, s, land, rest);
    more := land + rest;
  }

  lemma RecordSubmitted(env: Env, s: System, h: nat, i: nat) returns (more: seq<Step>)
    requires Inv(env, s) && h in s.handlers && s.handlers[h].row == Some(i)
    requires s.handlers[h].pc == Binding && env.decode(s.handlers[h].ev.commitment).Some?
    ensures HasTx(Run(env, s, more), i)
  {
    var s' := Next(env, s, Submit(h));
    NextKeepsInv(env, s, Submit(h));
    var rest := RecordInFlight(env, s', h, i);
    assert Run(env, s, []) == s && [Submit(h)][..0] == [];
    assert Run(env, s, [Submit(h)]) == s';
    RunJoins(env, s, [Submit(h)], rest);
    more := [Submit(h)] + rest;
  }

  lemma TxCanCome(env: Env, s: System, h: nat, i: nat) returns (more: seq<Step>)
    requires Inv(env, s) && MayRecord(env, s, h, i)
    ensures HasTx(Run(env, s, more), i)
  {
    var pc := s.handlers[h].pc;
    if pc.Recording? || pc.Confirmed? {
      more := RecordConfirmed(env, s, h, i);
    } else if pc == Binding {
      more := RecordSubmitted(env, s, h, i);
    } else if h in s.mempool && env.decode(s.handlers[h].ev.commitment).Some? {
      more := RecordInFlight(env, s, h, i);
    } else {
      more := RecordLanded(env, s, h, i);
    }
  }

  /** A row without a transaction can still get one exactly when the handler that inserted it has not
      stopped and its transaction is ahead of it, in flight, or has returned.  So a handler that dies after
      its transaction landed leaves the chain verified and the row, and its status, without. */
  lemma TxCanStillComeIff(env: Env, s: System, i: nat)
    requires Inv(env, s) && i < |s.rows| && s.rows[i].bindTx.None?
    ensures (exists more :: HasTx(Run(env, s, more), i)) <==> exists h :: MayRecord(env, s, h, i)
  {
    if h :| MayRecord(env, s, h, i) {
      var more := TxCanCome(env, s, h, i);
      assert exists more :: HasTx(Run(env, s, more), i);
      assert exists h :: MayRecord(env, s, h, i);
    } else {
      assert Unrecorded(env, s, i);
      forall more ensures !HasTx(Run(env, s, more), i) {
        UnrecordedForEver(env, s, i, more);
      }
    }
  }

  // ----- Which events reach the bind -----

  ghost predicate Touches(step: Step, h: nat) {
    !step.Elsewhere? && step.h == h
  }

  ghost predicate Holds(rows: seq<Row>, n: Nullifier) {
    exists i :: 0 <= i < |rows| && rows[i].nullifier == Some(n)
  }

  lemma HoldsIffFound(rows: seq<Row>, n: Nullifier)
    ensures Holds(rows, n) <==> Find(rows, n).Some?
  {
  }

  lemma OtherStep(env: Env, s: System, step: Step, h: nat, n: Nullifier)
    requires h in s.handlers && !Touches(step, h)
    ensures var s' := Next(env, s, step);
            h in s'.handlers && s'.handlers[h] == s.handlers[h] && (Holds(s.rows, n) ==> Holds(s'.rows, n))
  {
    var s' := Next(env, s, step);
    if i :| 0 <= i < |s.rows| && s.rows[i].nullifier == Some(n) {
      assert i < |s'.rows| && s'.rows[i].nullifier == s.rows[i].nullifier;
    }
  }

  lemma {:induction false} OtherSteps(env: Env, s: System, steps: seq<Step>, h: nat, n: Nullifier)
    requires h in s.handlers && forall i :: 0 <= i < |steps| ==> !Touches(steps[i], h)
    ensures var s' := Run(env, s, steps);
            h in s'.handlers && s'.handlers[h] == s.handlers[h] && (Holds(s.rows, n) ==> Holds(s'.rows, n))
  {
    if steps != [] {
      OtherSteps(env, s, steps[..|steps| - 1], h, n);
      OtherStep(env, Run(env, s, steps[..|steps| - 1]), steps[|steps| - 1], h, n);
    }
  }

  /** An approved event with a document goes on to bind exactly when no row holds its nullifier at its
      insert, whatever other handlers and the chain did since its query: the query and the unique index
      together let the first webhook of a nullifier through and no other. */
  lemma ReachesBindIff(env: Env, s: System, h: nat, others: seq<Step>, now: nat)
    requires h in s.handlers && s.handlers[h].pc == Selecting && Wanted(s.handlers[h].ev).Some?
    requires forall i :: 0 <= i < |others| ==> !Touches(others[i], h)
    ensures var before := Run(env, Next(env, s, Select(h)), others);
            && h in before.handlers
            && var after := Next(env, before, Insert(h, now));
               h in after.handlers && (after.handlers[h].pc == Binding <==> !Holds(before.rows, Wanted(s.handlers[h].ev).value))
  {
    var n := Wanted(s.handlers[h].ev).value;
    var selected := Next(env, s, Select(h));
    HoldsIffFound(s.rows, n);
    OtherSteps(env, selected, others, h, n);
    HoldsIffFound(Run(env, selected, others).rows, n);
  }

  /** And the nullifier it inserted can then be bound exactly when its commitment parses. */
  lemma FreshInsertCanBindIff(env: Env, s: System, h: nat, now: nat)
    requires Inv(env, s) && h in s.handlers && s.handlers[h].pc == Inserting && Wanted(s.handlers[h].ev).Some?
    requires !Holds(s.rows, Wanted(s.handlers[h].ev).value)
    ensures var n, after := Wanted(s.handlers[h].ev).value, Next(env, s, Insert(h, now));
            (exists more :: n in Run(env, after, more).chain.nullifiers) <==> env.decode(s.handlers[h].ev.commitment).Some?
  {
    var n, after := Wanted(s.handlers[h].ev).value, Next(env, s, Insert(h, now));
    HoldsIffFound(s.rows, n);
    NextKeepsInv(env, s, Insert(h, now));
    assert after.rows[|s.rows|].nullifier == Some(n);
    NotBoundBefore(env, s, n);
    KeptNullifierCanBindIff(env, after, |s.rows|, n);
    forall g ensures MayBind(env, after, g, n) <==> g == h && env.decode(s.handlers[h].ev.commitment).Some? {
      if g in s.handlers && Wanted(s.handlers[g].ev) == Some(n) {
        NoRowNoBind(env, s, g, n);
      }
    }
    assert env.decode(s.handlers[h].ev.commitment).Some? ==> MayBind(env, after, h, n);
  }

  lemma NotBoundBefore(env: Env, s: System, n: Nullifier)
    requires Inv(env, s) && !Holds(s.rows, n)
    ensures n !in s.chain.nullifiers
  {
    assert forall i :: !BoundAs(env, s.rows, s.chain.nullifiers, i, n);
  }

  lemma NoRowNoBind(env: Env, s: System, g: nat, n: Nullifier)
    requires Inv(env, s) && !Holds(s.rows, n) && g in s.handlers && Wanted(s.handlers[g].ev) == Some(n)
    ensures g !in s.mempool && s.handlers[g].pc != Binding
  {
    assert HandlerOk(env, s, g);
  }
}
