/** The heap merge that computes the pool order, proved against the simple form (l1/src/chain.ts). */
module LaneHeap {
  import opened Quorum
  import opened ChainTypes
  import opened Sorting
  import opened PendingOrder
  import opened BinaryHeap

  /** `liftTarget[i]`: index of the first authorized protocol transaction at or after i (-1 if none). */
  datatype Lane = Lane(queue: seq<Tx>, liftTarget: seq<int>)

  ghost predicate LiftTargetAt(ctx: Ctx, queue: seq<Tx>, i: nat, t: int)
    requires i <= |queue|
  {
    if t == -1 then FirstLifter(ctx, queue[i..]).None?
    else i <= t < |queue| && FirstLifter(ctx, queue[i..]) == Some(queue[t])
  }

  ghost predicate LiftTargets(ctx: Ctx, lane: Lane) {
    && |lane.liftTarget| == |lane.queue|
    && forall i :: 0 <= i < |lane.queue| ==> LiftTargetAt(ctx, lane.queue, i, lane.liftTarget[i])
  }

  method BuildLane(ctx: Ctx, queue: seq<Tx>) returns (lane: Lane)
    ensures lane.queue == SortLane(ctx, queue) && LiftTargets(ctx, lane)
  {
    var sorted := SortLane(ctx, queue);
    var targets: seq<int> := seq(|sorted|, _ => -1);
    var next := -1;
    for i := |sorted| downto 0
      invariant |targets| == |sorted| && LiftTargetAt(ctx, sorted, i, next)
      invariant forall k :: i <= k < |sorted| ==> LiftTargetAt(ctx, sorted, k, targets[k])
    {
      assert sorted[i..] == [sorted[i]] + sorted[i + 1..];
      if !sorted[i].kind.Transfer? && ctx.authorized(sorted[i]) { next := i; }
      targets := targets[i := next];
    }
    lane := Lane(sorted, targets);
  }

  predicate Live(lanes: seq<Lane>, index: seq<nat>, l: nat) {
    l < |lanes| && l < |index| && index[l] < |lanes[l].queue| && |lanes[l].liftTarget| == |lanes[l].queue|
  }

  function Rest(lanes: seq<Lane>, index: seq<nat>, l: nat): seq<Tx>
    requires Live(lanes, index, l)
  {
    lanes[l].queue[index[l]..]
  }

  function LaneHeadKey(lane: Lane, index: nat): seq<int>
    requires index < |lane.queue| && |lane.liftTarget| == |lane.queue|
  {
    var head, target := lane.queue[index], lane.liftTarget[index];
    if !head.kind.Transfer? then [0, ProtocolRank(head), ActivationOf(head)]
    else if 0 <= target < |lane.queue| then [0, ProtocolRank(lane.queue[target]), ActivationOf(lane.queue[target])]
    else [1, 0, 0]
  }

  /** The heap's comparison of two lane numbers. */
  predicate Before(ctx: Ctx, lanes: seq<Lane>, index: seq<nat>, a: nat, b: nat) {
    && Live(lanes, index, a) && Live(lanes, index, b)
    && var x, y := lanes[a].queue[index[a]], lanes[b].queue[index[b]];
       KeyLess(LaneHeadKey(lanes[a], index[a]) + TieKey(ctx, x), Units(x.txid), Units(x.sender),
               LaneHeadKey(lanes[b], index[b]) + TieKey(ctx, y), Units(y.txid), Units(y.sender))
  }

  function HeapOrder(ctx: Ctx, lanes: seq<Lane>, index: seq<nat>): Order {
    (a: nat, b: nat) => Before(ctx, lanes, index, a, b)
  }

  function Owner(lanes: seq<Lane>, l: nat): Address
    requires l < |lanes| && lanes[l].queue != []
  {
    lanes[l].queue[0].sender
  }

  /** One lane per sender, each with its lift targets. */
  ghost predicate GoodLanes(ctx: Ctx, lanes: seq<Lane>) {
    && (forall l :: 0 <= l < |lanes| ==> lanes[l].queue != [] && LiftTargets(ctx, lanes[l]))
    && (forall l, tx :: 0 <= l < |lanes| && tx in lanes[l].queue ==> tx.sender == Owner(lanes, l))
    && (forall l, l' :: 0 <= l < l' < |lanes| ==> Owner(lanes, l) != Owner(lanes, l'))
  }

  lemma BeforeIsHeadBefore(ctx: Ctx, lanes: seq<Lane>, index: seq<nat>, a: nat, b: nat)
    requires GoodLanes(ctx, lanes) && Live(lanes, index, a) && Live(lanes, index, b)
    ensures Before(ctx, lanes, index, a, b) == HeadBefore(ctx, Rest(lanes, index, a), Rest(lanes, index, b))
  {
    assert LiftTargetAt(ctx, lanes[a].queue, index[a], lanes[a].liftTarget[index[a]]);
    assert LiftTargetAt(ctx, lanes[b].queue, index[b], lanes[b].liftTarget[index[b]]);
  }

  lemma HeadOwner(ctx: Ctx, lanes: seq<Lane>, index: seq<nat>, l: nat)
    requires GoodLanes(ctx, lanes) && Live(lanes, index, l)
    ensures Rest(lanes, index, l) != [] && Rest(lanes, index, l)[0].sender == Owner(lanes, l)
  {
    assert lanes[l].queue[index[l]] in lanes[l].queue;
  }

  ghost predicate AllLive(lanes: seq<Lane>, index: seq<nat>, heap: seq<nat>) {
    forall l :: l in heap ==> Live(lanes, index, l)
  }

  lemma BeforeFacts(ctx: Ctx, lanes: seq<Lane>, index: seq<nat>, a: nat, b: nat)
    requires GoodLanes(ctx, lanes) && Live(lanes, index, a) && Live(lanes, index, b)
    ensures !(Before(ctx, lanes, index, a, b) && Before(ctx, lanes, index, b, a))
    ensures a != b ==> Before(ctx, lanes, index, a, b) || Before(ctx, lanes, index, b, a)
  {
    BeforeIsHeadBefore(ctx, lanes, index, a, b);
    BeforeIsHeadBefore(ctx, lanes, index, b, a);
    HeadOwner(ctx, lanes, index, a);
    HeadOwner(ctx, lanes, index, b);
    HeadBeforeTotal(ctx, Rest(lanes, index, a), Rest(lanes, index, b));
  }

  lemma NotBeforeTransitive(ctx: Ctx, lanes: seq<Lane>, index: seq<nat>, x: nat, y: nat, z: nat)
    requires GoodLanes(ctx, lanes) && Live(lanes, index, x) && Live(lanes, index, y) && Live(lanes, index, z)
    requires !Before(ctx, lanes, index, y, x) && !Before(ctx, lanes, index, z, y)
    ensures !Before(ctx, lanes, index, z, x)
  {
    BeforeFacts(ctx, lanes, index, x, y);
    BeforeFacts(ctx, lanes, index, y, z);
    BeforeFacts(ctx, lanes, index, x, z);
    if x != y && y != z {
      BeforeIsHeadBefore(ctx, lanes, index, x, y);
      BeforeIsHeadBefore(ctx, lanes, index, y, z);
      BeforeIsHeadBefore(ctx, lanes, index, x, z);
      HeadOwner(ctx, lanes, index, x);
      HeadOwner(ctx, lanes, index, y);
      HeadOwner(ctx, lanes, index, z);
      HeadBeforeTransitive(ctx, Rest(lanes, index, x), Rest(lanes, index, y), Rest(lanes, index, z));
    }
  }

  lemma HeapOrderOrders(ctx: Ctx, lanes: seq<Lane>, index: seq<nat>, heap: seq<nat>)
    requires GoodLanes(ctx, lanes) && AllLive(lanes, index, heap)
    ensures Orders(HeapOrder(ctx, lanes, index), heap)
  {
    var before := HeapOrder(ctx, lanes, index);
    forall x, y | x in heap && y in heap ensures !(before(x, y) && before(y, x)) {
      BeforeFacts(ctx, lanes, index, x, y);
    }
    forall x, y, z | x in heap && y in heap && z in heap && !before(y, x) && !before(z, y) ensures !before(z, x) {
      NotBeforeTransitive(ctx, lanes, index, x, y, z);
    }
  }

  // -------------------------------------------------------------------------
  // Grouping the pool into lanes
  // -------------------------------------------------------------------------

  ghost predicate Served(queues: seq<seq<Tx>>, a: Address)
    requires forall k :: 0 <= k < |queues| ==> queues[k] != []
  {
    exists k :: 0 <= k < |queues| && queues[k][0].sender == a
  }

  ghost predicate IsGrouping(txs: seq<Tx>, queues: seq<seq<Tx>>) {
    && (forall k :: 0 <= k < |queues| ==> queues[k] != [] && queues[k] == BySender(txs, queues[k][0].sender))
    && (forall k, k' :: 0 <= k < k' < |queues| ==> queues[k][0].sender != queues[k'][0].sender)
    && (forall tx :: tx in txs ==> Served(queues, tx.sender))
  }

  lemma SnocSender(txs: seq<Tx>, tx: Tx, a: Address)
    ensures BySender(txs + [tx], a) == if tx.sender == a then BySender(txs, a) + [tx] else BySender(txs, a)
  {
    BySenderConcat(txs, [tx], a);
  }

  lemma ExtendQueue(txs: seq<Tx>, tx: Tx, queues: seq<seq<Tx>>, k: nat)
    requires IsGrouping(txs, queues) && k < |queues| && queues[k][0].sender == tx.sender
    ensures IsGrouping(txs + [tx], queues[k := queues[k] + [tx]])
  {
    var out: seq<seq<Tx>> := queues[k := queues[k] + [tx]];
    assert forall i :: 0 <= i < |queues| ==> out[i] != [] && out[i][0] == queues[i][0];
    forall i | 0 <= i < |out| ensures out[i] == BySender(txs + [tx], out[i][0].sender) {
      SnocSender(txs, tx, queues[i][0].sender);
    }
    forall x | x in txs + [tx] ensures Served(out, x.sender) {
      if x in txs {
        var i :| 0 <= i < |queues| && queues[i][0].sender == x.sender;
        assert out[i][0].sender == x.sender;
      } else {
        assert out[k][0].sender == x.sender;
      }
    }
  }

  lemma OpenQueue(txs: seq<Tx>, tx: Tx, queues: seq<seq<Tx>>)
    requires IsGrouping(txs, queues) && forall i :: 0 <= i < |queues| ==> queues[i][0].sender != tx.sender
    ensures IsGrouping(txs + [tx], queues + [[tx]])
  {
    var out: seq<seq<Tx>> := queues + [[tx]];
    NewSender(txs, tx, queues);
    assert forall i :: 0 <= i < |queues| ==> out[i] == queues[i];
    assert out[|queues|] == [tx];
    forall i | 0 <= i < |queues| ensures queues[i] == BySender(txs + [tx], queues[i][0].sender) {
      SnocSender(txs, tx, queues[i][0].sender);
    }
    forall x | x in txs + [tx] ensures Served(out, x.sender) {
      ServedMore(queues, [tx], x.sender);
    }
  }

  lemma ServedMore(queues: seq<seq<Tx>>, last: seq<Tx>, a: Address)
    requires last != [] && forall k :: 0 <= k < |queues| ==> queues[k] != []
    ensures Served(queues, a) || last[0].sender == a ==> Served(queues + [last], a)
  {
    var out: seq<seq<Tx>> := queues + [last];
    if Served(queues, a) {
      var i :| 0 <= i < |queues| && queues[i][0].sender == a;
      assert out[i][0].sender == a;
    }
    assert out[|queues|] == last;
  }

  lemma NewSender(txs: seq<Tx>, tx: Tx, queues: seq<seq<Tx>>)
    requires IsGrouping(txs, queues) && forall i :: 0 <= i < |queues| ==> queues[i][0].sender != tx.sender
    ensures BySender(txs + [tx], tx.sender) == [tx]
  {
    SnocSender(txs, tx, tx.sender);
    var mine := BySender(txs, tx.sender);
    if mine != [] { BySenderMember(txs, tx.sender, mine[0]); }
    assert mine == [];
  }

  method GroupBySender(txs: seq<Tx>) returns (queues: seq<seq<Tx>>)
    ensures IsGrouping(txs, queues)
  {
    queues := [];
    for n := 0 to |txs|
      invariant IsGrouping(txs[..n], queues)
    {
      assert txs[..n + 1] == txs[..n] + [txs[n]];
      var k := FindQueue(queues, txs[n].sender);
      if k < |queues| {
        ExtendQueue(txs[..n], txs[n], queues, k);
        queues := queues[k := queues[k] + [txs[n]]];
      } else {
        OpenQueue(txs[..n], txs[n], queues);
        queues := queues + [[txs[n]]];
      }
    }
    assert txs[..|txs|] == txs;
  }

  method FindQueue(queues: seq<seq<Tx>>, a: Address) returns (k: nat)
    requires forall i :: 0 <= i < |queues| ==> queues[i] != []
    ensures k <= |queues| && (k < |queues| ==> queues[k][0].sender == a)
    ensures k == |queues| ==> forall i :: 0 <= i < |queues| ==> queues[i][0].sender != a
  {
    k := 0;
    while k < |queues| && queues[k][0].sender != a
      invariant k <= |queues| && forall i :: 0 <= i < k ==> queues[i][0].sender != a
    {
      k := k + 1;
    }
  }

  /** The lanes are exactly those of the simple form. */
  ghost predicate LanesMatch(ctx: Ctx, txs: seq<Tx>, lanes: seq<Lane>) {
    && GoodLanes(ctx, lanes)
    && (forall l :: 0 <= l < |lanes| ==>
      Owner(lanes, l) in Senders(txs) && lanes[l].queue == SortLane(ctx, BySender(txs, Owner(lanes, l))))
    && (forall a :: a in Senders(txs) ==> exists l :: 0 <= l < |lanes| && Owner(lanes, l) == a)
  }

  lemma SortedLaneOwner(ctx: Ctx, txs: seq<Tx>, a: Address)
    requires BySender(txs, a) != []
    ensures SortLane(ctx, BySender(txs, a)) != [] && a in Senders(txs)
    ensures forall tx :: tx in SortLane(ctx, BySender(txs, a)) ==> tx.sender == a
  {
    var q := BySender(txs, a);
    SortLaneSorts(ctx, q);
    SameMembers(SortLane(ctx, q), q);
    BySenderMember(txs, a, q[0]);
    forall tx | tx in SortLane(ctx, q) ensures tx.sender == a { BySenderMember(txs, a, tx); }
  }

  lemma AppendLane(ctx: Ctx, lanes: seq<Lane>, lane: Lane, a: Address)
    requires GoodLanes(ctx, lanes) && lane.queue != [] && LiftTargets(ctx, lane)
    requires forall tx :: tx in lane.queue ==> tx.sender == a
    requires forall l :: 0 <= l < |lanes| ==> Owner(lanes, l) != a
    ensures GoodLanes(ctx, lanes + [lane]) && Owner(lanes + [lane], |lanes|) == a
    ensures forall l :: 0 <= l < |lanes| ==> Owner(lanes + [lane], l) == Owner(lanes, l)
  {
    assert lane.queue[0] in lane.queue;
  }

  lemma LanesForMore(ctx: Ctx, txs: seq<Tx>, lanes: seq<Lane>, queues: seq<seq<Tx>>, lane: Lane)
    requires IsGrouping(txs, queues) && |lanes| < |queues| && GoodLanes(ctx, lanes) && LanesFor(ctx, lanes, queues)
    requires lane.queue == SortLane(ctx, queues[|lanes|]) && LiftTargets(ctx, lane)
    ensures GoodLanes(ctx, lanes + [lane]) && LanesFor(ctx, lanes + [lane], queues)
  {
    var n := |lanes|;
    SortedLaneOwner(ctx, txs, queues[n][0].sender);
    AppendLane(ctx, lanes, lane, queues[n][0].sender);
  }

  method BuildLanes(ctx: Ctx, txs: seq<Tx>) returns (lanes: seq<Lane>)
    ensures LanesMatch(ctx, txs, lanes)
  {
    var queues: seq<seq<Tx>> := GroupBySender(txs);
    lanes := [];
    for n := 0 to |queues|
      invariant |lanes| == n && GoodLanes(ctx, lanes) && LanesFor(ctx, lanes, queues)
    {
      var lane := BuildLane(ctx, queues[n]);
      LanesForMore(ctx, txs, lanes, queues, lane);
      lanes := lanes + [lane];
    }
    GroupingCovers(ctx, txs, queues, lanes);
  }

  /** Each lane is the sorted queue of its place. */
  ghost predicate LanesFor(ctx: Ctx, lanes: seq<Lane>, queues: seq<seq<Tx>>) {
    && |lanes| <= |queues|
    && forall l :: 0 <= l < |lanes| ==>
         && queues[l] != [] && lanes[l].queue == SortLane(ctx, queues[l])
         && lanes[l].queue != [] && Owner(lanes, l) == queues[l][0].sender
  }

  lemma GroupingCovers(ctx: Ctx, txs: seq<Tx>, queues: seq<seq<Tx>>, lanes: seq<Lane>)
    requires IsGrouping(txs, queues) && |lanes| == |queues| && GoodLanes(ctx, lanes)
    requires LanesFor(ctx, lanes, queues)
    ensures LanesMatch(ctx, txs, lanes)
  {
    forall l | 0 <= l < |lanes|
      ensures Owner(lanes, l) in Senders(txs) && lanes[l].queue == SortLane(ctx, BySender(txs, Owner(lanes, l)))
    {
      SortedLaneOwner(ctx, txs, queues[l][0].sender);
    }
    forall a | a in Senders(txs) ensures exists l :: 0 <= l < |lanes| && Owner(lanes, l) == a {
      var tx :| tx in txs && tx.sender == a;
      var k :| 0 <= k < |queues| && queues[k][0].sender == tx.sender;
      assert Owner(lanes, k) == a;
    }
  }

  // -------------------------------------------------------------------------
  // The merge
  // -------------------------------------------------------------------------

  ghost predicate Bounded(lanes: seq<Lane>, index: seq<nat>) {
    |index| == |lanes| && forall l :: 0 <= l < |lanes| ==> index[l] <= |lanes[l].queue|
  }

  /** The heap holds the live lanes, once each. */
  ghost predicate HoldsLive(lanes: seq<Lane>, index: seq<nat>, heap: seq<nat>) {
    && (forall l :: l in heap <==> Live(lanes, index, l))
    && (forall i, j :: 0 <= i < j < |heap| ==> heap[i] != heap[j])
  }

  /** `rest` is what is left of the live lanes. */
  ghost predicate LeftOver(lanes: seq<Lane>, index: seq<nat>, rest: Lanes) {
    && (forall l: nat :: Live(lanes, index, l) ==>
      Owner(lanes, l) in rest && rest[Owner(lanes, l)] == Rest(lanes, index, l))
    && (forall a :: a in rest ==> exists l: nat :: Live(lanes, index, l) && Owner(lanes, l) == a)
  }

  ghost predicate MergeState(ctx: Ctx, lanes: seq<Lane>, index: seq<nat>, heap: seq<nat>, rest: Lanes) {
    GoodLanes(ctx, lanes) && Bounded(lanes, index) && HoldsLive(lanes, index, heap) && LeftOver(lanes, index, rest)
  }

  lemma StateWellFormed(ctx: Ctx, lanes: seq<Lane>, index: seq<nat>, heap: seq<nat>, rest: Lanes)
    requires MergeState(ctx, lanes, index, heap, rest)
    ensures WellFormed(rest) && AllLive(lanes, index, heap)
  {
    forall a | a in rest ensures rest[a] != [] && forall tx :: tx in rest[a] ==> tx.sender == a {
      var l: nat :| Live(lanes, index, l) && Owner(lanes, l) == a;
      forall tx | tx in rest[a] ensures tx.sender == a {
        assert tx in lanes[l].queue;
      }
    }
  }

  /** The root's head is the least head. */
  lemma RootHoldsLeast(ctx: Ctx, lanes: seq<Lane>, index: seq<nat>, heap: seq<nat>, rest: Lanes)
    requires MergeState(ctx, lanes, index, heap, rest) && WellFormed(rest)
    requires heap != [] && HeapOrdered(HeapOrder(ctx, lanes, index), heap)
    ensures Live(lanes, index, heap[0]) && IsLeast(ctx, rest, Owner(lanes, heap[0]))
  {
    StateWellFormed(ctx, lanes, index, heap, rest);
    HeapOrderOrders(ctx, lanes, index, heap);
    assert heap[0] in heap;
    var root := heap[0];
    forall b | b in rest && b != Owner(lanes, root) ensures HeadBefore(ctx, rest[Owner(lanes, root)], rest[b]) {
      var l: nat :| Live(lanes, index, l) && Owner(lanes, l) == b;
      assert l in heap;
      var k :| 0 <= k < |heap| && heap[k] == l;
      RootIsLeast(HeapOrder(ctx, lanes, index), heap, k);
      BeforeFacts(ctx, lanes, index, root, l);
      BeforeIsHeadBefore(ctx, lanes, index, root, l);
    }
  }

  /** Advancing one lane changes no comparison between the others. */
  lemma OthersUnchanged(ctx: Ctx, lanes: seq<Lane>, index: seq<nat>, t: nat, a: nat, b: nat)
    requires t < |index| && a != t && b != t
    ensures var next := index[t := index[t] + 1];
      Before(ctx, lanes, next, a, b) == Before(ctx, lanes, index, a, b)
  {
  }

  ghost function Advance(index: seq<nat>, t: nat): seq<nat>
    requires t < |index|
  {
    index[t := index[t] + 1]
  }

  lemma AdvancedRest(ctx: Ctx, lanes: seq<Lane>, index: seq<nat>, rest: Lanes, t: nat)
    requires GoodLanes(ctx, lanes) && LeftOver(lanes, index, rest) && WellFormed(rest) && Live(lanes, index, t)
    ensures LeftOver(lanes, Advance(index, t), Pop(rest, Owner(lanes, t)))
  {
    var next, a := Advance(index, t), Owner(lanes, t);
    var popped := Pop(rest, a);
    forall l: nat | Live(lanes, next, l)
      ensures Owner(lanes, l) in popped && popped[Owner(lanes, l)] == Rest(lanes, next, l)
    {
      assert Live(lanes, index, l);
      if l != t { assert Owner(lanes, l) != a; }
    }
    forall b | b in popped ensures exists l: nat :: Live(lanes, next, l) && Owner(lanes, l) == b {
      var l: nat :| Live(lanes, index, l) && Owner(lanes, l) == b;
      assert rest[b] == Rest(lanes, index, l);
      assert Live(lanes, next, l);
    }
  }

  lemma AdvancedHeap(lanes: seq<Lane>, index: seq<nat>, heap: seq<nat>)
    requires HoldsLive(lanes, index, heap) && heap != [] && Live(lanes, index, heap[0])
    ensures HoldsLive(lanes, Advance(index, heap[0]),
      if Live(lanes, Advance(index, heap[0]), heap[0]) then heap else heap[1..])
  {
    var t := heap[0];
    var next := Advance(index, t);
    assert forall l: nat :: l != t ==> Live(lanes, next, l) == Live(lanes, index, l);
    assert forall l :: l in heap[1..] <==> l in heap && l != t;
  }

  lemma MoveLastKeeps(heap: seq<nat>)
    requires |heap| > 1
    ensures var moved := heap[..|heap| - 1][0 := heap[|heap| - 1]]; multiset(moved) == multiset(heap[1..])
  {
    var n := |heap| - 1;
    assert heap[1..] == heap[1..n] + [heap[n]];
    assert heap[..n][0 := heap[n]] == [heap[n]] + heap[1..n];
  }

  lemma SameHeapState(lanes: seq<Lane>, index: seq<nat>, heap: seq<nat>, heap': seq<nat>)
    requires HoldsLive(lanes, index, heap) && multiset(heap) == multiset(heap')
    ensures HoldsLive(lanes, index, heap')
  {
    SameMembers(heap, heap');
    DistinctByMultiset(heap, heap');
  }

  lemma DistinctByMultiset(heap: seq<nat>, heap': seq<nat>)
    requires multiset(heap) == multiset(heap') && forall i, j :: 0 <= i < j < |heap| ==> heap[i] != heap[j]
    ensures forall i, j :: 0 <= i < j < |heap'| ==> heap'[i] != heap'[j]
  {
    forall i, j | 0 <= i < j < |heap'| ensures heap'[i] != heap'[j] {
      if heap'[i] == heap'[j] {
        var x := heap'[i];
        assert heap' == heap'[..i] + [x] + heap'[i + 1..j] + [x] + heap'[j + 1..];
        assert multiset(heap')[x] >= 2;
        DistinctCount(heap, x);
      }
    }
  }

  lemma {:induction false} DistinctCount(heap: seq<nat>, x: nat)
    requires forall i, j :: 0 <= i < j < |heap| ==> heap[i] != heap[j]
    ensures multiset(heap)[x] <= 1
  {
    if heap != [] {
      DistinctCount(heap[1..], x);
      assert heap == [heap[0]] + heap[1..];
      if heap[0] == x { assert x !in heap[1..]; }
    }
  }

  /** Only edges at the root can break when the root's lane moved on. */
  lemma OnlyRootMoved(ctx: Ctx, lanes: seq<Lane>, index: seq<nat>, heap: seq<nat>, heap': seq<nat>, t: nat)
    requires t < |index| && heap != [] && heap[0] == t && HeapOrdered(HeapOrder(ctx, lanes, index), heap)
    requires forall i :: 0 < i < |heap| ==> heap[i] != t
    requires 0 < |heap'| <= |heap| && forall i :: 0 < i < |heap'| ==> heap'[i] == heap[i]
    ensures OrderedButBelow(HeapOrder(ctx, lanes, Advance(index, t)), heap', 0)
  {
    var before := HeapOrder(ctx, lanes, Advance(index, t));
    forall k | 0 < k < |heap'| && Parent(k) != 0 ensures Edge(before, heap', k) {
      assert Edge(HeapOrder(ctx, lanes, index), heap, k);
      OthersUnchanged(ctx, lanes, index, t, heap[k], heap[Parent(k)]);
    }
  }

  method RestoreHeap(ctx: Ctx, lanes: seq<Lane>, index: seq<nat>, heap: seq<nat>, next: seq<nat>, ghost rest: Lanes)
    returns (out: seq<nat>)
    requires MergeState(ctx, lanes, index, heap, rest) && WellFormed(rest) && heap != [] && Live(lanes, index, heap[0])
    requires HeapOrdered(HeapOrder(ctx, lanes, index), heap)
    requires heap[0] < |index| && next == Advance(index, heap[0])
    ensures MergeState(ctx, lanes, next, out, Pop(rest, Owner(lanes, heap[0])))
    ensures HeapOrdered(HeapOrder(ctx, lanes, next), out)
  {
    var t := heap[0];
    AdvancedRest(ctx, lanes, index, rest, t);
    AdvancedHeap(lanes, index, heap);
    assert Bounded(lanes, next);
    if next[t] < |lanes[t].queue| {
      OnlyRootMoved(ctx, lanes, index, heap, heap, t);
      HeapOrderOrders(ctx, lanes, next, heap);
      out := SiftDown(HeapOrder(ctx, lanes, next), heap);
      SameHeapState(lanes, next, heap, out);
    } else {
      var last := heap[|heap| - 1];
      var shorter := heap[..|heap| - 1];
      if shorter != [] {
        var moved := shorter[0 := last];
        MoveLastKeeps(heap);
        SameHeapState(lanes, next, heap[1..], moved);
        OnlyRootMoved(ctx, lanes, index, heap, moved, t);
        HeapOrderOrders(ctx, lanes, next, moved);
        out := SiftDown(HeapOrder(ctx, lanes, next), moved);
        SameHeapState(lanes, next, moved, out);
      } else {
        assert heap[1..] == [];
        out := [];
      }
    }
  }

  method BuildHeap(ctx: Ctx, lanes: seq<Lane>, index: seq<nat>) returns (heap: seq<nat>)
    requires GoodLanes(ctx, lanes) && |index| == |lanes| && forall l :: 0 <= l < |lanes| ==> index[l] == 0
    ensures HeapOrdered(HeapOrder(ctx, lanes, index), heap)
    ensures HoldsLive(lanes, index, heap)
  {
    heap := [];
    for n := 0 to |lanes|
      invariant HeapOrdered(HeapOrder(ctx, lanes, index), heap)
      invariant forall l :: l in heap <==> 0 <= l < n
      invariant forall i, j :: 0 <= i < j < |heap| ==> heap[i] != heap[j]
    {
      var pushed := heap + [n];
      assert forall l: nat :: l < |lanes| ==> Live(lanes, index, l);
      assert forall i :: 0 <= i < |heap| ==> heap[i] in heap;
      HeapOrderOrders(ctx, lanes, index, pushed);
      assert forall k :: 0 <= k < |heap| ==> Edge(HeapOrder(ctx, lanes, index), heap, k) ==>
        Edge(HeapOrder(ctx, lanes, index), pushed, k);
      heap := SiftUp(HeapOrder(ctx, lanes, index), pushed, |pushed| - 1);
      SameMembers(heap, pushed);
      DistinctByMultiset(pushed, heap);
    }
  }

  method ArrivalMap(txs: seq<Tx>) returns (arrival: map<string, nat>)
    ensures arrival == ArrivalIndex(txs)
  {
    arrival := map[];
    for n := 0 to |txs|
      invariant arrival == ArrivalIndex(txs[..n])
    {
      assert txs[..n + 1][..n] == txs[..n];
      if txs[n].txid !in arrival { arrival := arrival[txs[n].txid := n]; }
    }
    assert txs[..|txs|] == txs;
  }

  lemma InitialState(ctx: Ctx, txs: seq<Tx>, lanes: seq<Lane>, index: seq<nat>, heap: seq<nat>)
    requires LanesMatch(ctx, txs, lanes) && |index| == |lanes| && forall l :: 0 <= l < |lanes| ==> index[l] == 0
    requires HoldsLive(lanes, index, heap)
    ensures MergeState(ctx, lanes, index, heap, LanesOf(ctx, txs))
  {
    forall a | a in LanesOf(ctx, txs) ensures exists l :: Live(lanes, index, l) && Owner(lanes, l) == a {
      var l :| 0 <= l < |lanes| && Owner(lanes, l) == a;
      assert Live(lanes, index, l);
    }
  }

  /** Whatever completes the merge of `rest` completes, after `ordered`, the merge of `all`. */
  ghost predicate Prefix(ctx: Ctx, all: Lanes, ordered: seq<Tx>, rest: Lanes)
    requires WellFormed(all) && WellFormed(rest)
  {
    forall out :: IsMerge(ctx, rest, out) ==> IsMerge(ctx, all, ordered + out)
  }

  lemma PrefixStep(ctx: Ctx, all: Lanes, ordered: seq<Tx>, rest: Lanes, a: Address)
    requires WellFormed(all) && WellFormed(rest) && Prefix(ctx, all, ordered, rest)
    requires IsLeast(ctx, rest, a) && WellFormed(Pop(rest, a))
    ensures Prefix(ctx, all, ordered + [rest[a][0]], Pop(rest, a))
  {
    var tx := rest[a][0];
    assert tx in rest[a];
    forall out | IsMerge(ctx, Pop(rest, a), out) ensures IsMerge(ctx, all, (ordered + [tx]) + out) {
      assert ([tx] + out)[1..] == out;
      assert IsMerge(ctx, rest, [tx] + out);
      assert ordered + ([tx] + out) == (ordered + [tx]) + out;
    }
  }

  lemma PrefixEnds(ctx: Ctx, lanes: seq<Lane>, index: seq<nat>, all: Lanes, ordered: seq<Tx>, rest: Lanes)
    requires WellFormed(all) && MergeState(ctx, lanes, index, [], rest) && WellFormed(rest)
    requires Prefix(ctx, all, ordered, rest)
    ensures IsMerge(ctx, all, ordered)
  {
    assert forall l: nat :: !Live(lanes, index, l);
    assert rest == map[];
    assert IsMerge(ctx, rest, []);
    assert ordered + [] == ordered;
  }

  /** The heap merge computes the simple form. */
  method OrderPendingByFeePriority(txs: seq<Tx>, authorized: Tx -> bool, feePriority: bool) returns (ordered: seq<Tx>)
    ensures IsOrdered(txs, authorized, feePriority, ordered)
  {
    var arrival: map<string, nat> := map[];
    if !feePriority { arrival := ArrivalMap(txs); }
    var ctx := Ctx(authorized, feePriority, arrival);
    var lanes := BuildLanes(ctx, txs);
    LanesAreWellFormed(ctx, txs);
    ordered := MergeLanes(ctx, lanes, txs);
  }

  method MergeLanes(ctx: Ctx, lanes: seq<Lane>, ghost txs: seq<Tx>) returns (ordered: seq<Tx>)
    requires LanesMatch(ctx, txs, lanes) && WellFormed(LanesOf(ctx, txs))
    ensures IsMerge(ctx, LanesOf(ctx, txs), ordered)
  {
    var index: seq<nat> := seq(|lanes|, _ => 0);
    var heap := BuildHeap(ctx, lanes, index);
    ghost var all := LanesOf(ctx, txs);
    ghost var rest := all;
    InitialState(ctx, txs, lanes, index, heap);
    ordered := [];
    PrefixStarts(ctx, all);
    while heap != []
      invariant MergeState(ctx, lanes, index, heap, rest) && WellFormed(rest)
      invariant HeapOrdered(HeapOrder(ctx, lanes, index), heap)
      invariant Prefix(ctx, all, ordered, rest)
      decreases Remaining(lanes, index)
    {
      var tx;
      tx, index, heap, rest := TakeRoot(ctx, lanes, index, heap, all, ordered, rest);
      ordered := ordered + [tx];
    }
    PrefixEnds(ctx, lanes, index, all, ordered, rest);
  }

  lemma PrefixStarts(ctx: Ctx, all: Lanes)
    requires WellFormed(all)
    ensures Prefix(ctx, all, [], all)
  {
    forall out | IsMerge(ctx, all, out) ensures IsMerge(ctx, all, [] + out) {
      assert [] + out == out;
    }
  }

  /** One round of the merge loop. */
  method TakeRoot(ctx: Ctx, lanes: seq<Lane>, index: seq<nat>, heap: seq<nat>, ghost all: Lanes,
                  ghost ordered: seq<Tx>, ghost rest: Lanes)
    returns (tx: Tx, next: seq<nat>, heap': seq<nat>, ghost rest': Lanes)
    requires MergeState(ctx, lanes, index, heap, rest) && WellFormed(rest) && heap != []
    requires HeapOrdered(HeapOrder(ctx, lanes, index), heap) && WellFormed(all) && Prefix(ctx, all, ordered, rest)
    ensures MergeState(ctx, lanes, next, heap', rest') && WellFormed(rest')
    ensures HeapOrdered(HeapOrder(ctx, lanes, next), heap')
    ensures Prefix(ctx, all, ordered + [tx], rest') && Remaining(lanes, next) < Remaining(lanes, index)
  {
    RootHoldsLeast(ctx, lanes, index, heap, rest);
    var t := heap[0];
    tx := lanes[t].queue[index[t]];
    next := index[t := index[t] + 1];
    heap' := RestoreHeap(ctx, lanes, index, heap, next, rest);
    rest' := Pop(rest, Owner(lanes, t));
    StateWellFormed(ctx, lanes, next, heap', rest');
    PrefixStep(ctx, all, ordered, rest, Owner(lanes, t));
    RemainingDrops(lanes, index, t);
  }

  ghost function Remaining(lanes: seq<Lane>, index: seq<nat>): nat {
    if lanes == [] || index == [] then 0
    else (if index[0] < |lanes[0].queue| then |lanes[0].queue| - index[0] else 0) + Remaining(lanes[1..], index[1..])
  }

  lemma {:induction false} RemainingDrops(lanes: seq<Lane>, index: seq<nat>, t: nat)
    requires Live(lanes, index, t)
    ensures Remaining(lanes, index[t := index[t] + 1]) < Remaining(lanes, index)
  {
    if t > 0 {
      RemainingDrops(lanes[1..], index[1..], t - 1);
      assert index[t := index[t] + 1][1..] == index[1..][t - 1 := index[t] + 1];
    } else {
      assert index[0 := index[0] + 1][1..] == index[1..];
    }
  }
}
