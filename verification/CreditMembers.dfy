/** Offers follow a wallet's record, not its membership: when the group that answers for a wallet counts
    it as a member, over single calls and whole runs. */
module CreditMembers {
  import opened Common
  import opened CreditChain
  import CreditGate
  import WI = WalletIdentity

  ghost predicate IsMember(w: World, wallet: Address, c: Commitment) {
    wallet in w.identity.commitmentOf && w.identity.commitmentOf[wallet] == c
  }

  /** Whichever group answers for the wallet, if any, counts it as a member. */
  ghost predicate Counted(w: World, wallet: Address) {
    wallet in w.risk.records && AnsweringGroup(w, wallet).Some? ==> IsMember(w, wallet, AnsweringGroup(w, wallet).value)
  }

  /** The record names a scored group that the wallet is not in. */
  ghost predicate NamesForeign(w: World, wallet: Address, own: AttestationData) {
    && own.identityCommitment.Some? && own.identityCommitment.value in w.identity.attestations
    && !IsMember(w, wallet, own.identityCommitment.value)
  }

  ghost predicate Scores(tx: Tx, w: World, c: Commitment) {
    && tx.call.Identity? && tx.call.wi.UpdateGroupScore? && tx.call.wi.commitment == c
    && WI.UpdateScore(Context(tx.signers, Attestors(w.registry)), w.identity, tx.call.wi.attestor, c, tx.call.wi.attestation).1.Return?
  }

  /** The call leaves the wallet answered for by a group it is not in: it leaves others behind there, its
      record comes to name such a group, that group gets its first score, or groups start to answer. */
  ghost predicate Estranges(checks: Checks, tx: Tx, w: World, wallet: Address) {
    || (tx.call == Identity(WI.LeaveGroup(wallet)) && LeavesOthers(w, tx.signers, wallet))
    || (w.risk.identityWired && exists e :: e in Written(checks, tx, w) && e.wallet == wallet && NamesForeign(w, wallet, e.data))
    || (exists c :: Scores(tx, w, c) && AnswersFor(w, c, wallet) && !IsMember(w, wallet, c))
    || (tx.call == Risk(SetWalletIdentity) && w.risk.admin in tx.signers && !w.risk.identityWired
        && wallet in w.risk.records && NamesForeign(w, wallet, w.risk.records[wallet]))
  }

  ghost predicate LeavesOthers(w: World, signers: set<Address>, wallet: Address) {
    && wallet in signers && wallet in w.identity.commitmentOf && wallet in w.risk.records
    && AnsweringGroup(w, wallet) == Some(w.identity.commitmentOf[wallet])
    && WI.Members(w.identity.commitmentOf, w.identity.commitmentOf[wallet]) != {wallet}
  }

  lemma LeaveCountsIff(checks: Checks, signers: set<Address>, w: World, leaver: Address, wallet: Address)
    requires WI.Inv(w.identity) && Counted(w, wallet)
    ensures Counted(Step(checks, signers, w, Identity(WI.LeaveGroup(leaver))), wallet) <==> !(leaver == wallet && LeavesOthers(w, signers, wallet))
  {
    CreditGate.LeaveEffect(checks, signers, w, leaver);
    LeaveMoves(Context(signers, Attestors(w.registry)), w.identity, leaver, wallet);
  }

  lemma LeaveMoves(ctx: Context, s: WI.Store, leaver: Address, wallet: Address)
    ensures var s' := WI.Leave(ctx, s, leaver).0;
            s'.commitmentOf == if leaver in ctx.signers then s.commitmentOf - {leaver} else s.commitmentOf
  {
  }

  lemma WriteCountsIff(checks: Checks, tx: Tx, w: World, wallet: Address)
    requires Counted(w, wallet) && tx.call.Risk? && !tx.call.ra.SetWalletIdentity?
    ensures Counted(Step(checks, tx.signers, w, tx.call), wallet) <==> !Estranges(checks, tx, w, wallet)
  {
    var w' := Step(checks, tx.signers, w, tx.call);
    WrittenShape(checks, tx, w);
    CreditGate.WiringStays(checks, Context(tx.signers, Attestors(w.registry)), w.risk, tx.call.ra);
    if Written(checks, tx, w) != [] {
      var e := Written(checks, tx, w)[0];
      assert Written(checks, tx, w) == [e];
    }
  }

  lemma WireCountsIff(checks: Checks, tx: Tx, w: World, wallet: Address)
    requires Counted(w, wallet) && tx.call == Risk(SetWalletIdentity)
    ensures Counted(Step(checks, tx.signers, w, tx.call), wallet) <==> !Estranges(checks, tx, w, wallet)
  {
    assert Written(checks, tx, w) == [];
  }

  lemma ScoreCountsIff(checks: Checks, tx: Tx, w: World, wallet: Address)
    requires Counted(w, wallet) && tx.call.Identity? && tx.call.wi.UpdateGroupScore?
    ensures Counted(Step(checks, tx.signers, w, tx.call), wallet) <==> !Estranges(checks, tx, w, wallet)
  {
    var c := tx.call.wi.commitment;
    if Scores(tx, w, c) {
      ScoreStores(checks, tx.signers, w, tx.call.wi.attestor, c, tx.call.wi.attestation);
    } else {
      assert Step(checks, tx.signers, w, tx.call) == w;
    }
  }

  /** Joining and binding take no member away and score no group. */
  lemma OthersCount(checks: Checks, tx: Tx, w: World, wallet: Address)
    requires Counted(w, wallet) && !tx.call.Risk?
    requires tx.call.Identity? ==> !tx.call.wi.LeaveGroup? && !tx.call.wi.UpdateGroupScore?
    ensures Counted(Step(checks, tx.signers, w, tx.call), wallet)
  {
    if tx.call.Identity? {
      OthersOnlyJoin(checks.identity, Context(tx.signers, Attestors(w.registry)), w.identity, tx.call.wi);
    }
  }

  lemma OthersOnlyJoin(gate: WI.Gate, ctx: Context, s: WI.Store, call: WI.Call)
    requires !call.LeaveGroup? && !call.UpdateGroupScore?
    ensures var s' := WI.Step(true, gate, ctx, s, call).0;
            && s'.attestations.Keys == s.attestations.Keys
            && forall a :: a in s.commitmentOf ==> a in s'.commitmentOf && s'.commitmentOf[a] == s.commitmentOf[a]
  {
  }

  /** Any call of any contract keeps it, except exactly those. */
  lemma CountedStaysIff(checks: Checks, tx: Tx, w: World, wallet: Address)
    requires WI.Inv(w.identity) && Counted(w, wallet)
    ensures Counted(Step(checks, tx.signers, w, tx.call), wallet) <==> !Estranges(checks, tx, w, wallet)
  {
    match tx.call
    case Identity(LeaveGroup(leaver)) => LeaveCountsIff(checks, tx.signers, w, leaver, wallet);
    case Identity(UpdateGroupScore(_, _, _)) => ScoreCountsIff(checks, tx, w, wallet);
    case Risk(SetWalletIdentity) => WireCountsIff(checks, tx, w, wallet);
    case Risk(_) => WriteCountsIff(checks, tx, w, wallet);
    case _ => OthersCount(checks, tx, w, wallet);
  }

  ghost predicate CountedAt(checks: Checks, w: World, txs: seq<Tx>, wallet: Address, k: nat)
    requires k <= |txs|
  {
    Counted(Run(checks, w, txs[..k]).0, wallet)
  }

  ghost predicate EstrangedAt(checks: Checks, w: World, txs: seq<Tx>, wallet: Address, k: nat)
    requires k < |txs|
  {
    Estranges(checks, txs[k], Run(checks, w, txs[..k]).0, wallet)
  }

  lemma CountedNextIff(checks: Checks, w: World, txs: seq<Tx>, wallet: Address, k: nat)
    requires WI.Inv(w.identity) && k < |txs| && CountedAt(checks, w, txs, wallet, k)
    ensures CountedAt(checks, w, txs, wallet, k + 1) <==> !EstrangedAt(checks, w, txs, wallet, k)
  {
    RunKeepsIdentityInv(checks, w, txs[..k]);
    CountedStaysIff(checks, txs[k], Run(checks, w, txs[..k]).0, wallet);
    assert txs[..k + 1][..k] == txs[..k];
  }

  lemma {:induction false} CountedUpTo(checks: Checks, w: World, txs: seq<Tx>, wallet: Address, k: nat)
    requires WI.Inv(w.identity) && Counted(w, wallet) && k <= |txs|
    requires forall j :: 0 <= j < |txs| ==> !EstrangedAt(checks, w, txs, wallet, j)
    ensures CountedAt(checks, w, txs, wallet, k)
  {
    if k == 0 {
      assert txs[..0] == [];
    } else {
      CountedUpTo(checks, w, txs, wallet, k - 1);
      CountedNextIff(checks, w, txs, wallet, k - 1);
      assert !EstrangedAt(checks, w, txs, wallet, k - 1);
    }
  }

  /** Over every run: the group that answers for a wallet counts it as a member all along exactly when no
      call estranges the two. */
  lemma CountedThroughIff(checks: Checks, w: World, txs: seq<Tx>, wallet: Address)
    requires WI.Inv(w.identity) && Counted(w, wallet)
    ensures (forall k :: 0 <= k <= |txs| ==> CountedAt(checks, w, txs, wallet, k))
            <==> (forall k :: 0 <= k < |txs| ==> !EstrangedAt(checks, w, txs, wallet, k))
  {
    if forall k :: 0 <= k < |txs| ==> !EstrangedAt(checks, w, txs, wallet, k) {
      forall k | 0 <= k <= |txs| ensures CountedAt(checks, w, txs, wallet, k) {
        CountedUpTo(checks, w, txs, wallet, k);
      }
    }
    if forall k :: 0 <= k <= |txs| ==> CountedAt(checks, w, txs, wallet, k) {
      forall k | 0 <= k < |txs| ensures !EstrangedAt(checks, w, txs, wallet, k) {
        assert CountedAt(checks, w, txs, wallet, k) && CountedAt(checks, w, txs, wallet, k + 1);
        CountedNextIff(checks, w, txs, wallet, k);
      }
    }
  }
}
