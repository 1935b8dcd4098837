/** Validator sets, the floor(2n/3)+1 quorum and quorum intersection (l1/src/block.ts). */
module Quorum {
  import opened Arithmetic

  type Address = string
  type PublicKey = string

  datatype Option<+T> = None | Some(value: T)

  datatype Validator = Validator(address: Address, publicKey: PublicKey)

  /** Genesis and update checks admit only sets whose addresses and keys are pairwise distinct. */
  predicate DistinctValidators(vs: seq<Validator>) {
    forall i, j :: 0 <= i < j < |vs| ==> vs[i].address != vs[j].address && vs[i].publicKey != vs[j].publicKey
  }

  function QuorumSize(n: nat): nat {
    n * 2 / 3 + 1
  }

  /** The proposer of (height, round); the source refuses an empty set and heights below 1. */
  function ExpectedValidator(vs: seq<Validator>, height: nat, round: nat): (v: Validator)
    requires |vs| > 0 && height >= 1
  {
    vs[((height - 1) % |vs| + round % |vs|) % |vs|]
  }

  /** Where the leader of a round sits, counted around the set from round 0. */
  lemma LeaderAt(vs: seq<Validator>, height: nat, round: nat)
    requires |vs| > 0 && height >= 1
    ensures var start, turns := (height - 1) % |vs|, round % |vs|;
      ExpectedValidator(vs, height, round) == vs[if start + turns < |vs| then start + turns else start + turns - |vs|]
  {
    var start, turns, n := (height - 1) % |vs|, round % |vs|, |vs|;
    if start + turns < n {
      DivModIs(start + turns, n, 0, start + turns);
    } else {
      DivModIs(start + turns, n, 1, start + turns - n);
    }
  }

  /** Rounds of one height fewer than n apart are led by different validators. */
  lemma LeadersDiffer(vs: seq<Validator>, height: nat, round: nat, ahead: nat)
    requires DistinctValidators(vs) && height >= 1 && 0 < ahead < |vs|
    ensures ExpectedValidator(vs, height, round) != ExpectedValidator(vs, height, round + ahead)
  {
    LeaderAt(vs, height, round);
    LeaderAt(vs, height, round + ahead);
    ModAhead(round, ahead, |vs|);
  }

  /** Any n rounds in a row give every validator the lead. */
  lemma EveryoneLeads(vs: seq<Validator>, height: nat, from: nat, i: nat) returns (round: nat)
    requires height >= 1 && i < |vs|
    ensures from <= round < from + |vs| && ExpectedValidator(vs, height, round) == vs[i]
  {
    var n := |vs|;
    var start, turns := (height - 1) % n, from % n;
    var first := if start + turns < n then start + turns else start + turns - n;
    var ahead := if first <= i then i - first else i + n - first;
    round := from + ahead;
    LeaderAt(vs, height, round);
    ModAhead(from, ahead, n);
  }

  /** The next height begins with the validator after the one this height began with. */
  lemma NextHeightLeader(vs: seq<Validator>, height: nat, i: nat)
    requires DistinctValidators(vs) && height >= 1 && i < |vs| && ExpectedValidator(vs, height, 0) == vs[i]
    ensures ExpectedValidator(vs, height + 1, 0) == vs[if i + 1 < |vs| then i + 1 else 0]
  {
    var n := |vs|;
    LeaderAt(vs, height, 0);
    LeaderAt(vs, height + 1, 0);
    DivModIs(0, n, 0, 0);
    if n == 1 {
      assert i == 0;
    } else {
      ModAhead(height - 1, 1, n);
    }
  }

  /** `new Map(validators.map(...))`: a later entry with the same address wins. */
  function MemberMap(vs: seq<Validator>): map<Address, PublicKey> {
    if vs == [] then map[] else MemberMap(vs[..|vs| - 1])[vs[|vs| - 1].address := vs[|vs| - 1].publicKey]
  }

  predicate IsMember(vs: seq<Validator>, address: Address, key: PublicKey) {
    address in MemberMap(vs) && MemberMap(vs)[address] == key
  }

  ghost function Keys(vs: seq<Validator>): set<PublicKey> {
    set v | v in vs :: v.publicKey
  }

  lemma {:induction false} MemberIsListed(vs: seq<Validator>, address: Address, key: PublicKey)
    requires IsMember(vs, address, key)
    ensures Validator(address, key) in vs
  {
    var last := vs[|vs| - 1];
    if last.address != address {
      MemberIsListed(vs[..|vs| - 1], address, key);
    }
  }

  lemma {:induction false} ListedIsMember(vs: seq<Validator>, v: Validator)
    requires DistinctValidators(vs) && v in vs
    ensures IsMember(vs, v.address, v.publicKey)
  {
    var last := vs[|vs| - 1];
    if last != v {
      ListedIsMember(vs[..|vs| - 1], v);
      var i :| 0 <= i < |vs| - 1 && vs[i] == v;
      assert vs[i].address != last.address;
    }
  }

  lemma {:induction false} KeyCount(vs: seq<Validator>)
    requires DistinctValidators(vs)
    ensures |Keys(vs)| == |vs|
  {
    if vs != [] {
      var init, last := vs[..|vs| - 1], vs[|vs| - 1];
      KeyCount(init);
      assert vs == init + [last];
      assert Keys(vs) == Keys(init) + {last.publicKey};
      assert last.publicKey !in Keys(init);
    }
  }

  predicate OneEach(members: seq<Validator>) {
    forall i, j :: 0 <= i < j < |members| ==> members[i].address != members[j].address
  }

  /** Of listed members, as many keys as entries means that no address comes twice. */
  lemma {:induction false} MemberCount(members: seq<Validator>, vs: seq<Validator>)
    requires DistinctValidators(vs) && forall v :: v in members ==> v in vs
    ensures |Keys(members)| <= |members| && (|Keys(members)| == |members| <==> OneEach(members))
    decreases |members|
  {
    if members != [] {
      var n := |members| - 1;
      MemberCount(members[..n], vs);
      KeysMore(members, n);
      OneEachMore(members, n);
      SameMember(members, vs, n);
    }
  }

  lemma OneEachMore(members: seq<Validator>, n: nat)
    requires |members| == n + 1
    ensures OneEach(members) <==>
      OneEach(members[..n]) && forall i :: 0 <= i < n ==> members[i].address != members[n].address
  {
  }

  lemma KeysMore(members: seq<Validator>, n: nat)
    requires |members| == n + 1
    ensures Keys(members) == Keys(members[..n]) + {members[n].publicKey}
    ensures members[n].publicKey in Keys(members[..n]) <==>
      exists i :: 0 <= i < n && members[i].publicKey == members[n].publicKey
  {
    assert members == members[..n] + [members[n]];
    forall i | 0 <= i < n ensures members[i].publicKey in Keys(members[..n]) {
      assert members[..n][i] in members[..n];
    }
  }

  /** A repeated key is a repeated address. */
  lemma SameMember(members: seq<Validator>, vs: seq<Validator>, n: nat)
    requires DistinctValidators(vs) && n < |members| && forall v :: v in members ==> v in vs
    ensures forall i :: 0 <= i < n ==>
      (members[i].address == members[n].address <==> members[i].publicKey == members[n].publicKey)
  {
    forall i | 0 <= i < n
      ensures members[i].address == members[n].address <==> members[i].publicKey == members[n].publicKey
    {
      assert members[i] in members && members[n] in members;
      var k :| 0 <= k < |vs| && vs[k] == members[i];
      var l :| 0 <= l < |vs| && vs[l] == members[n];
    }
  }

  /** Being in the map of members is being listed. */
  lemma MemberIff(vs: seq<Validator>, address: Address, key: PublicKey)
    requires DistinctValidators(vs)
    ensures IsMember(vs, address, key) <==> Validator(address, key) in vs
  {
    if IsMember(vs, address, key) { MemberIsListed(vs, address, key); }
    if Validator(address, key) in vs { ListedIsMember(vs, Validator(address, key)); }
  }

  lemma {:induction false} SubsetCardinality<T>(a: set<T>, b: set<T>)
    requires a <= b
    ensures |a| <= |b|
  {
    assert b == a + (b - a);
    assert a !! (b - a);
  }

  /** Two quorums share a member outside any faulty third. */
  lemma QuorumIntersection<T>(all: set<T>, faulty: set<T>, q1: set<T>, q2: set<T>) returns (x: T)
    requires q1 <= all && q2 <= all
    requires |q1| >= QuorumSize(|all|) && |q2| >= QuorumSize(|all|)
    requires 3 * |faulty| < |all|
    ensures x in q1 && x in q2 && x !in faulty
  {
    SubsetCardinality(q1 + q2, all);
    assert |q1 + q2| == |q1| + |q2| - |q1 * q2|;
    assert |q1 * q2| > |faulty|;
    if q1 * q2 <= faulty {
      SubsetCardinality(q1 * q2, faulty);
    }
    x :| x in q1 * q2 && x !in faulty;
  }
}
