/**
 * The byte budget of a block's list: what selection counts is the length of the list's canonical
 * JSON, element by element and comma by comma (l1/src/chain.ts).
 */
module BlockBytes {
  import opened ChainTypes
  import opened BlockBuilding
  import opened CanonicalText
  import opened JsonReader
  import opened CanonicalStream

  /** The bytes of each element. */
  ghost predicate Measured(txs: seq<Tx>, items: seq<Value>) {
    |txs| == |items| && forall i :: 0 <= i < |txs| ==> txs[i].bytes == |Utf8(Encode(items[i]))|
  }

  /** Bytes add up where no surrogate pair is cut. */
  lemma BytesAdd(s: Text, t: Text)
    requires Paired(s)
    ensures |Utf8(s + t)| == |Utf8(s)| + |Utf8(t)|
  {
    ScanAppend(s, t, TokenBytes);
  }

  lemma {:induction false} ItemsMore(items: seq<Value>, v: Value)
    ensures Items(items + [v]) == Items(items) + (if items == [] then [] else [COMMA]) + Encode(v)
    decreases |items|
  {
    ItemsOne(v);
    if items == [] {
      assert items + [v] == [v];
    } else {
      var first, rest := items[0], items[1..];
      assert items + [v] == [first] + (rest + [v]) && items == [first] + rest;
      ItemsNext(first, rest + [v]);
      if rest == [] {
        ItemsOne(first);
        assert rest + [v] == [v] && items == [first];
      } else {
        ItemsMore(rest, v);
        ItemsNext(first, rest);
        JoinMore(Encode(first), Items(rest), Encode(v));
      }
    }
  }

  lemma ItemsOne(v: Value)
    ensures Items([v]) == Encode(v)
  {
    assert Encode(v) + [] == Encode(v);
  }

  lemma JoinMore(a: Text, b: Text, c: Text)
    ensures a + ([COMMA] + (b + [COMMA] + c)) == a + ([COMMA] + b) + [COMMA] + c
  {
  }

  lemma ItemsNext(v: Value, rest: seq<Value>)
    requires rest != []
    ensures Items([v] + rest) == Encode(v) + ([COMMA] + Items(rest))
  {
    assert ([v] + rest)[1..] == rest;
  }

  lemma TextMore(items: seq<Value>, v: Value)
    ensures |Utf8(Items(items + [v]))| ==
      |Utf8(Items(items))| + (if items == [] then 0 else 1) + |Utf8(Encode(v))|
  {
    var comma := if items == [] then [] else [COMMA];
    ItemsMore(items, v);
    ItemsPaired(items);
    LowPaired(comma);
    PairedConcat(Items(items), comma);
    BytesAdd(Items(items), comma);
    BytesAdd(Items(items) + comma, Encode(v));
    CommaByte(|items|);
  }

  /** The bytes of the elements and of the commas between them. */
  function TextBytes(items: seq<Value>): nat {
    if items == [] then 0
    else
      var n := |items| - 1;
      TextBytes(items[..n]) + (if n == 0 then 0 else 1) + |Utf8(Encode(items[n]))|
  }

  lemma {:induction false} TextBytesAre(items: seq<Value>)
    ensures TextBytes(items) == |Utf8(Items(items))|
    decreases |items|
  {
    if items != [] {
      var n := |items| - 1;
      TextBytesAre(items[..n]);
      TextMore(items[..n], items[n]);
      assert items == items[..n] + [items[n]];
    }
  }

  lemma {:induction false} CountedBytes(txs: seq<Tx>, items: seq<Value>)
    requires Measured(txs, items)
    ensures ListBytes(txs) == TextBytes(items)
    decreases |txs|
  {
    if txs != [] { CountedBytes(txs[..|txs| - 1], items[..|items| - 1]); }
  }

  /** Main result: the running total of selection is the length of the selected list inside its JSON array. */
  lemma ListBytesAreText(txs: seq<Tx>, items: seq<Value>)
    requires Measured(txs, items)
    ensures ListBytes(txs) == |Utf8(Items(items))|
  {
    CountedBytes(txs, items);
    TextBytesAre(items);
  }

  lemma CommaByte(n: nat)
    ensures |Utf8(if n == 0 then [] else [COMMA])| == if n == 0 then 0 else 1
  {
    assert Scan([], TokenBytes) == [];
    assert [COMMA][..1] == [COMMA] && [COMMA][1..] == [];
  }
}
