/** Group membership with the identity-proof gate filled in: what a member of a proof-gated group has
    shown. */
module Membership {
  import opened Common
  import opened Groth16
  import opened ProofBlobs
  import WI = WalletIdentity

  /** The gate `register_wallet` runs. */
  ghost function ProofGate(host: Host): WI.Gate {
    (vk: Bytes, proof: Bytes, c: Commitment, w: Address) => IdentityGate(host, vk, proof, c, w)
  }

  /** A proof that satisfies the Groth16 equation of the key at the commitment and the wallet's field
      element. */
  ghost predicate Shows(host: Host, vk: Bytes, proof: Bytes, c: Commitment, w: Address) {
    match (ReadVk(vk), ReadProof(proof))
    case (Some(k), Some(p)) =>
      && |k.ic| == |p.inputs| + 1 >= 3 && PointsValid(host, k, p) && Equation(host, k, p)
      && p.inputs[0] == c && p.inputs[1] == AddrToFr(host, w)
    case _ => false
  }

  /** The gate accepts exactly such proofs. */
  lemma GateShows(host: Host, vk: Bytes, proof: Bytes, c: Commitment, w: Address)
    ensures IdentityGate(host, vk, proof, c, w) == Accept <==> Shows(host, vk, proof, c, w)
  {
    if ReadProof(proof).Some? {
      NthInputOfRead(proof, 0);
      NthInputOfRead(proof, 1);
    }
  }

  /** It panics exactly on blobs that cannot be judged, and on an accepted proof that is too short to name
      the wallet; every other proof it rejects. */
  lemma GatePanicsIff(host: Host, vk: Bytes, proof: Bytes, c: Commitment, w: Address)
    ensures IdentityGate(host, vk, proof, c, w) == Panic
            <==> || !Judgeable(host, vk, proof)
                 || (&& Equation(host, ReadVk(vk).value, ReadProof(proof).value)
                     && (|ReadProof(proof).value.inputs| == 0
                         || (|ReadProof(proof).value.inputs| == 1 && ReadProof(proof).value.inputs[0] == c)))
  {
    if ReadProof(proof).Some? {
      NthInputOfRead(proof, 0);
      NthInputOfRead(proof, 1);
    }
  }

  /** Over every run that starts with an identity key set, a member who was not one before, or was in
      another group, signed a registration whose proof shows its commitment and its address. */
  lemma MembersHaveProofs(host: Host, eager: bool, s: WI.Store, run: seq<WI.Event>, w: Address) returns (i: nat)
    requires s.vk.Some?
    ensures var s' := WI.Run(eager, ProofGate(host), s, run).0;
            w in s'.commitmentOf && !(w in s.commitmentOf && s.commitmentOf[w] == s'.commitmentOf[w]) ==>
              && i < |run| && run[i].call.RegisterWallet? && run[i].call.wallet == w && w in run[i].ctx.signers
              && run[i].call.commitment == s'.commitmentOf[w]
              && var key := WI.Run(eager, ProofGate(host), s, run[..i]).0.vk;
                 key.Some? && Shows(host, key.value, run[i].call.proof, s'.commitmentOf[w], w)
  {
    i := WI.MembershipHasProof(eager, ProofGate(host), s, run, w);
    var s' := WI.Run(eager, ProofGate(host), s, run).0;
    if w in s'.commitmentOf && !(w in s.commitmentOf && s.commitmentOf[w] == s'.commitmentOf[w]) {
      var key := WI.Run(eager, ProofGate(host), s, run[..i]).0.vk;
      GateShows(host, key.value, run[i].call.proof, s'.commitmentOf[w], w);
    }
  }
}
