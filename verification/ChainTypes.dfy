/** Transactions as the chain's ordering, selection and governance rules see them (l1/src/types.ts). */
module ChainTypes {
  import opened Quorum

  datatype OracleAction = Pause | Resume | Revoke

  datatype Kind =
    | Transfer
    | ActivitySettlement(epoch: int)
    | ValidatorUpdate(activationHeight: nat, validators: seq<Validator>)
    | ProtocolUpgrade(activationHeight: nat, protocolVersion: nat)
    | OracleGovernance(activationHeight: nat, action: OracleAction, publicKeys: seq<PublicKey>)

  /** `verified`: the approval's signature verifies over the transaction. */
  datatype Approval = Approval(validator: Address, publicKey: PublicKey, verified: bool)

  /** `bytes` is the length of the canonical JSON of the transaction. */
  datatype Tx = Tx(
    txid: string, chainId: string, version: nat, sender: Address, nonce: nat, feeAtoms: nat,
    timestampMs: int, bytes: nat, kind: Kind, approvals: seq<Approval>)

  function Units(s: string): (u: seq<int>)
    ensures |u| == |s| && forall i :: 0 <= i < |s| ==> u[i] == s[i] as int
  {
    seq(|s|, i requires 0 <= i < |s| => s[i] as int)
  }

  lemma UnitsInjective(s: string, t: string)
    requires Units(s) == Units(t)
    ensures s == t
  {
    assert |s| == |t|;
    forall i | 0 <= i < |s| ensures s[i] == t[i] {
      assert Units(s)[i] == Units(t)[i];
    }
  }
}
