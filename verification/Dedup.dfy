/** Finding the receipts that repeat an earlier one, and those that nearly do. */
module Dedup {
  import opened Domain
  import opened Sums
  import opened Text
  import opened Evidence
  import opened Amounts

  // Keys

  predicate IsAlphanumeric(c: char) {
    'a' <= c <= 'z' || '0' <= c <= '9'
  }

  function KeepAlphanumeric(s: string): (t: string)
    ensures forall i :: 0 <= i < |t| ==> IsAlphanumeric(t[i])
  {
    if s == [] then []
    else
      var t := KeepAlphanumeric(s[..|s| - 1]);
      if IsAlphanumeric(s[|s| - 1]) then t + [s[|s| - 1]] else t
  }

  function NormaliseMerchant(value: Option<string>): (t: string)
    ensures '|' !in t
  {
    if value.None? then "" else KeepAlphanumeric(LowerAll(value.value))
  }

  function NormaliseBillNo(value: Option<string>): string {
    if value.None? then "" else LowerAll(Strip(value.value))
  }

  function When(item: ExtractedItem): (at: string)
    ensures '|' !in at
  {
    if item.txnDatetime.Some? then item.txnDatetime.value.iso
    else if item.txnDate.Some? then item.txnDate.value.iso
    else ""
  }

  function JoinFields(merchant: string, at: string, amount: string, billNo: string): string {
    merchant + ['|'] + (at + ['|'] + (amount + ['|'] + billNo))
  }

  /** The key two receipts of one transaction share, its four fields joined with bars. */
  function Fingerprint(item: ExtractedItem): string {
    JoinFields(NormaliseMerchant(item.merchant), When(item), Plain(item.gross), NormaliseBillNo(item.billNo))
  }

  datatype NearKey = NearKey(merchant: string, day: string, amount: int)

  function NearKeyOf(item: ExtractedItem): NearKey {
    NearKey(NormaliseMerchant(item.merchant),
            if item.TxnDay().Some? then item.TxnDay().value.iso else "",
            item.gross)
  }

  // First occurrences

  datatype Match = Match(index: nat, duplicateOf: nat)

  datatype DedupResult = DedupResult(kept: seq<nat>, suppressed: seq<Match>, warnings: seq<Match>)

  /** Where a key first occurs. */
  function FirstIndex<K(==)>(keys: seq<K>, key: K): (k: nat)
    requires key in keys
    ensures k < |keys| && keys[k] == key && key !in keys[..k]
  {
    if keys[0] == key then 0 else 1 + FirstIndex(keys[1..], key)
  }

  /** The indices whose key has not occurred before. */
  function Kept<K(==)>(keys: seq<K>): (kept: seq<nat>)
    ensures forall k :: 0 <= k < |kept| ==> kept[k] < |keys|
  {
    if keys == [] then []
    else
      var n := |keys| - 1;
      Kept(keys[..n]) + (if keys[n] in keys[..n] then [] else [n])
  }

  /** Every other index, paired with the first occurrence of its key. */
  function Suppressed<K(==)>(keys: seq<K>): seq<Match> {
    if keys == [] then []
    else
      var n := |keys| - 1;
      Suppressed(keys[..n])
      + (if keys[n] in keys[..n] then [Match(n, FirstIndex(keys[..n], keys[n]))] else [])
  }

  function Pick<T>(items: seq<T>, indices: seq<nat>): (picked: seq<T>)
    requires forall k :: 0 <= k < |indices| ==> indices[k] < |items|
    ensures |picked| == |indices|
    ensures forall k :: 0 <= k < |indices| ==> picked[k] == items[indices[k]]
  {
    seq(|indices|, k requires 0 <= k < |indices| => items[indices[k]])
  }

  /** Kept indices whose near key an earlier kept index has, paired with the first such index. */
  function Warnings<K(==), N(==)>(keys: seq<K>, nears: seq<N>): seq<Match>
    requires |keys| == |nears|
  {
    if keys == [] then []
    else
      var n := |keys| - 1;
      var kept := Kept(keys[..n]);
      var seen := Pick(nears[..n], kept);
      Warnings(keys[..n], nears[..n])
      + (if keys[n] !in keys[..n] && nears[n] in seen then [Match(n, kept[FirstIndex(seen, nears[n])])] else [])
  }

  function Fingerprints(items: seq<ExtractedItem>): (keys: seq<string>)
    ensures |keys| == |items|
    ensures forall i :: 0 <= i < |items| ==> keys[i] == Fingerprint(items[i])
  {
    seq(|items|, i requires 0 <= i < |items| => Fingerprint(items[i]))
  }

  function NearKeys(items: seq<ExtractedItem>): (nears: seq<NearKey>)
    ensures |nears| == |items|
    ensures forall i :: 0 <= i < |items| ==> nears[i] == NearKeyOf(items[i])
  {
    seq(|items|, i requires 0 <= i < |items| => NearKeyOf(items[i]))
  }

  function Deduplicated(items: seq<ExtractedItem>): DedupResult {
    DedupResult(Kept(Fingerprints(items)),
                Suppressed(Fingerprints(items)),
                Warnings(Fingerprints(items), NearKeys(items)))
  }

  function FilterOut(items: seq<ExtractedItem>): seq<ExtractedItem> {
    Pick(items, Kept(Fingerprints(items)))
  }

  /** A dictionary that answers each key of a sequence with the label of its first occurrence. */
  ghost predicate Indexes<K>(index: map<K, nat>, keys: seq<K>, labels: seq<nat>)
    requires |keys| == |labels|
  {
    && (forall key | key in keys :: key in index)
    && (forall key | key in index :: key in keys && index[key] == labels[FirstIndex(keys, key)])
  }

  function Upto(n: nat): (s: seq<nat>)
    ensures |s| == n
    ensures forall i :: 0 <= i < n ==> s[i] == i
  {
    seq(n, i requires 0 <= i < n => i)
  }

  method FindDuplicates(items: seq<ExtractedItem>) returns (result: DedupResult)
    ensures result == Deduplicated(items)
  {
    result := FirstOccurrences(Fingerprints(items), NearKeys(items));
  }

  /** What the pass holds after some items: the three lists so far, and a dictionary for each key. */
  ghost predicate Holds<K, N>(keys: seq<K>, nears: seq<N>, result: DedupResult,
                              seenExact: map<K, nat>, seenNear: map<N, nat>)
    requires |keys| == |nears|
  {
    && result == DedupResult(Kept(keys), Suppressed(keys), Warnings(keys, nears))
    && Indexes(seenExact, keys, Upto(|keys|))
    && Indexes(seenNear, Pick(nears, result.kept), result.kept)
  }

  /** One pass with two dictionaries finds exactly the first occurrences. */
  method FirstOccurrences<K(==), N(==)>(keys: seq<K>, nears: seq<N>) returns (result: DedupResult)
    requires |keys| == |nears|
    ensures result == DedupResult(Kept(keys), Suppressed(keys), Warnings(keys, nears))
  {
    var kept: seq<nat>, suppressed: seq<Match>, warnings: seq<Match> := [], [], [];
    var seenExact: map<K, nat>, seenNear: map<N, nat> := map[], map[];

    NothingSeenYet(keys[..0], nears[..0]);
    for index := 0 to |keys|
      invariant Holds(keys[..index], nears[..index], DedupResult(kept, suppressed, warnings), seenExact, seenNear)
    {
      var key, near := keys[index], nears[index];
      PrefixGrows(keys, index);
      PrefixGrows(nears, index);
      if key in seenExact {
        RepeatHolds(keys[..index], key, nears[..index], near, kept, suppressed, warnings, seenExact, seenNear);
        suppressed := suppressed + [Match(index, seenExact[key])];
        continue;
      }
      NewHolds(keys[..index], key, nears[..index], near, kept, suppressed, warnings, seenExact, seenNear);
      if near in seenNear {
        warnings := warnings + [Match(index, seenNear[near])];
      }
      seenExact := seenExact[key := index];
      seenNear := if near in seenNear then seenNear else seenNear[near := index];
      kept := kept + [index];
    }
    assert keys[..|keys|] == keys && nears[..|nears|] == nears;
    result := DedupResult(kept, suppressed, warnings);
  }

  lemma NothingSeenYet<K, N>(keys: seq<K>, nears: seq<N>)
    requires keys == [] && nears == []
    ensures Holds(keys, nears, DedupResult([], [], []), map[], map[])
  {
  }

  lemma PrefixGrows<T>(s: seq<T>, n: nat)
    requires n < |s|
    ensures s[..n + 1] == s[..n] + [s[n]]
  {
  }

  lemma IndexAnswers<K>(index: map<K, nat>, keys: seq<K>, labels: seq<nat>, key: K)
    requires |keys| == |labels| && Indexes(index, keys, labels)
    ensures key in index <==> key in keys
    ensures key in index ==> index[key] == labels[FirstIndex(keys, key)]
  {
  }

  lemma ExactGrows<K>(seenExact: map<K, nat>, keys: seq<K>, key: K)
    requires Indexes(seenExact, keys, Upto(|keys|))
    ensures Indexes(if key in seenExact then seenExact else seenExact[key := |keys|], keys + [key], Upto(|keys| + 1))
  {
    IndexGrows(seenExact, keys, Upto(|keys|), key, |keys|);
    assert Upto(|keys| + 1) == Upto(|keys|) + [|keys|];
  }

  lemma RepeatHolds<K, N>(keys: seq<K>, key: K, nears: seq<N>, near: N, kept: seq<nat>, suppressed: seq<Match>,
                          warnings: seq<Match>, seenExact: map<K, nat>, seenNear: map<N, nat>)
    requires |keys| == |nears|
    requires Holds(keys, nears, DedupResult(kept, suppressed, warnings), seenExact, seenNear)
    requires key in seenExact
    ensures Holds(keys + [key], nears + [near],
                  DedupResult(kept, suppressed + [Match(|keys|, seenExact[key])], warnings), seenExact, seenNear)
  {
    IndexAnswers(seenExact, keys, Upto(|keys|), key);
    KeyPushed(keys, key);
    NearPushed(keys, key, nears, near);
    PickPushed(nears, near, kept);
    ExactGrows(seenExact, keys, key);
  }

  lemma NewHolds<K, N>(keys: seq<K>, key: K, nears: seq<N>, near: N, kept: seq<nat>, suppressed: seq<Match>,
                       warnings: seq<Match>, seenExact: map<K, nat>, seenNear: map<N, nat>)
    requires |keys| == |nears|
    requires Holds(keys, nears, DedupResult(kept, suppressed, warnings), seenExact, seenNear)
    requires key !in seenExact
    ensures Holds(keys + [key], nears + [near],
                  DedupResult(kept + [|keys|], suppressed,
                              if near in seenNear then warnings + [Match(|keys|, seenNear[near])] else warnings),
                  seenExact[key := |keys|],
                  if near in seenNear then seenNear else seenNear[near := |keys|])
  {
    IndexAnswers(seenExact, keys, Upto(|keys|), key);
    IndexAnswers(seenNear, Pick(nears, kept), kept, near);
    KeyPushed(keys, key);
    NearPushed(keys, key, nears, near);
    PickPushed(nears, near, kept);
    ExactGrows(seenExact, keys, key);
    IndexGrows(seenNear, Pick(nears, kept), kept, near, |keys|);
  }

  /** What one more item adds to the first two lists. */
  lemma KeyPushed<K>(keys: seq<K>, key: K)
    ensures Kept(keys + [key]) == if key in keys then Kept(keys) else Kept(keys) + [|keys|]
    ensures Suppressed(keys + [key])
         == if key in keys then Suppressed(keys) + [Match(|keys|, FirstIndex(keys, key))] else Suppressed(keys)
  {
    var all := keys + [key];
    assert all[..|all| - 1] == keys && all[|all| - 1] == key;
  }

  /** What one more item adds to the warnings. */
  lemma NearPushed<K, N>(keys: seq<K>, key: K, nears: seq<N>, near: N)
    requires |keys| == |nears|
    ensures var seen := Pick(nears, Kept(keys));
      Warnings(keys + [key], nears + [near])
      == if key !in keys && near in seen
         then Warnings(keys, nears) + [Match(|keys|, Kept(keys)[FirstIndex(seen, near)])]
         else Warnings(keys, nears)
  {
    assert (keys + [key])[..|keys|] == keys && (nears + [near])[..|nears|] == nears;
  }

  /** Adding a key only when it is missing keeps a dictionary on first occurrences. */
  lemma IndexGrows<K>(index: map<K, nat>, keys: seq<K>, labels: seq<nat>, key: K, at: nat)
    requires |keys| == |labels| && Indexes(index, keys, labels)
    ensures Indexes(if key in index then index else index[key := at], keys + [key], labels + [at])
  {
    FirstIndexOfExtension(keys, key);
  }

  /** First occurrences stay where they are when a sequence grows. */
  lemma FirstIndexOfExtension<K>(keys: seq<K>, key: K)
    ensures forall k :: k in keys ==> FirstIndex(keys + [key], k) == FirstIndex(keys, k)
    ensures key !in keys ==> FirstIndex(keys + [key], key) == |keys|
  {
    forall k | k in keys
      ensures FirstIndex(keys + [key], k) == FirstIndex(keys, k)
    {
      FirstIndexIs(keys + [key], k, FirstIndex(keys, k));
    }
    if key !in keys {
      FirstIndexIs(keys + [key], key, |keys|);
    }
  }

  lemma FirstIndexIs<K>(keys: seq<K>, key: K, k: nat)
    requires k < |keys| && keys[k] == key
    requires forall j :: 0 <= j < k ==> keys[j] != key
    ensures FirstIndex(keys, key) == k
  {
    assert forall f :: k < f <= |keys| ==> keys[..f][k] == key;
  }

  // What deduplication promises

  /** An index is kept exactly when its key did not occur before it, and suppressed otherwise. */
  lemma {:induction false} KeptOrSuppressed<K>(keys: seq<K>, i: nat)
    requires i < |keys|
    ensures i in Kept(keys) <==> keys[i] !in keys[..i]
    ensures (exists m :: m in Suppressed(keys) && m.index == i) <==> i !in Kept(keys)
  {
    var n := |keys| - 1;
    if i < n {
      KeptOrSuppressed(keys[..n], i);
      assert keys[..n][..i] == keys[..i];
    } else {
      SuppressedMatches(keys[..n]);
    }
    if exists m :: m in Suppressed(keys[..n]) && m.index == i {
      var m :| m in Suppressed(keys[..n]) && m.index == i;
      assert m in Suppressed(keys);
    }
    if i == n && keys[n] in keys[..n] {
      assert Match(n, FirstIndex(keys[..n], keys[n])) in Suppressed(keys);
    }
  }

  /** Every suppressed index repeats the key of an earlier index, which is kept. */
  lemma {:induction false} SuppressedMatches<K>(keys: seq<K>)
    ensures forall m :: m in Suppressed(keys) ==>
              && m.duplicateOf < m.index < |keys|
              && keys[m.index] == keys[m.duplicateOf]
              && m.duplicateOf in Kept(keys)
  {
    if keys != [] {
      var n := |keys| - 1;
      SuppressedMatches(keys[..n]);
      if keys[n] in keys[..n] {
        var first := FirstIndex(keys[..n], keys[n]);
        KeptOrSuppressed(keys[..n], first);
        assert keys[..n][..first] == keys[..first];
      }
    }
  }

  /** Kept indices keep the original order, and no two of them have the same key. */
  lemma {:induction false} KeptIsStrictlyIncreasing<K>(keys: seq<K>)
    ensures forall a, b :: 0 <= a < b < |Kept(keys)| ==> Kept(keys)[a] < Kept(keys)[b]
    ensures forall a, b :: 0 <= a < b < |Kept(keys)| ==> keys[Kept(keys)[a]] != keys[Kept(keys)[b]]
  {
    if keys != [] {
      KeptIsStrictlyIncreasing(keys[..|keys| - 1]);
    }
  }

  /** Every key that occurs is the key of some kept index. */
  lemma EveryKeyIsKept<K>(keys: seq<K>, key: K)
    requires key in keys
    ensures FirstIndex(keys, key) in Kept(keys)
    ensures key in Pick(keys, Kept(keys))
  {
    var first := FirstIndex(keys, key);
    KeptOrSuppressed(keys, first);
    var k :| 0 <= k < |Kept(keys)| && Kept(keys)[k] == first;
    assert Pick(keys, Kept(keys))[k] == key;
  }

  /** A warning names an earlier kept index with the same near key and a different key. */
  lemma {:induction false} WarningsAreNearMisses<K, N>(keys: seq<K>, nears: seq<N>)
    requires |keys| == |nears|
    ensures forall w :: w in Warnings(keys, nears) ==>
              && w.duplicateOf < w.index < |keys|
              && w.index in Kept(keys) && w.duplicateOf in Kept(keys)
              && nears[w.duplicateOf] == nears[w.index]
              && keys[w.duplicateOf] != keys[w.index]
  {
    if keys != [] {
      var n := |keys| - 1;
      WarningsAreNearMisses(keys[..n], nears[..n]);
      var kept := Kept(keys[..n]);
      var seen := Pick(nears[..n], kept);
      if keys[n] !in keys[..n] && nears[n] in seen {
        var first := kept[FirstIndex(seen, nears[n])];
        assert first in kept;
        assert keys[..n][first] in keys[..n];
      }
    }
  }

  /** Of several kept indices with its near key, each warning names the first. */
  ghost predicate NameTheFirst<N>(kept: seq<nat>, nears: seq<N>, warnings: seq<Match>) {
    forall w, j :: w in warnings && j in kept && j < |nears| && w.index < |nears| && nears[j] == nears[w.index] ==>
      w.duplicateOf <= j
  }

  lemma OneMoreKeptLater<N>(kept: seq<nat>, nears: seq<N>, near: N, warnings: seq<Match>)
    requires NameTheFirst(kept, nears, warnings)
    requires forall w :: w in warnings ==> w.duplicateOf < w.index < |nears|
    ensures NameTheFirst(kept, nears + [near], warnings)
    ensures NameTheFirst(kept + [|nears|], nears + [near], warnings)
  {
  }

  lemma OneMoreWarning<N>(kept: seq<nat>, nears: seq<N>, near: N, warnings: seq<Match>, first: nat)
    requires NameTheFirst(kept + [|nears|], nears + [near], warnings) && first < |nears|
    requires forall j :: j in kept && j < |nears| && nears[j] == near ==> first <= j
    ensures NameTheFirst(kept + [|nears|], nears + [near], warnings + [Match(|nears|, first)])
  {
  }

  lemma WarningsStillNameTheFirst<K, N>(keys: seq<K>, key: K, nears: seq<N>, near: N)
    requires |keys| == |nears| && NameTheFirst(Kept(keys), nears, Warnings(keys, nears))
    ensures NameTheFirst(Kept(keys + [key]), nears + [near], Warnings(keys + [key], nears + [near]))
  {
    var kept, warnings := Kept(keys), Warnings(keys, nears);
    KeyPushed(keys, key);
    NearPushed(keys, key, nears, near);
    WarningsAreNearMisses(keys, nears);
    OneMoreKeptLater(kept, nears, near, warnings);
    if key !in keys && near in Pick(nears, kept) {
      var first := kept[FirstIndex(Pick(nears, kept), near)];
      forall j | j in kept && j < |nears| && nears[j] == near
        ensures first <= j
      {
        KeptRises(keys);
        FirstNearIsLeast(kept, nears, near, j);
      }
      OneMoreWarning(kept, nears, near, warnings, first);
    }
  }

  lemma KeptRises<K>(keys: seq<K>)
    ensures forall a, b :: 0 <= a < b < |Kept(keys)| ==> Kept(keys)[a] < Kept(keys)[b]
  {
    KeptIsStrictlyIncreasing(keys);
  }

  lemma {:induction false} WarningsNameTheFirst<K, N>(keys: seq<K>, nears: seq<N>, n: nat)
    requires |keys| == |nears| && n <= |keys|
    ensures NameTheFirst(Kept(keys[..n]), nears[..n], Warnings(keys[..n], nears[..n]))
  {
    if n > 0 {
      WarningsNameTheFirst(keys, nears, n - 1);
      PrefixGrows(keys, n - 1);
      PrefixGrows(nears, n - 1);
      WarningsStillNameTheFirst(keys[..n - 1], keys[n - 1], nears[..n - 1], nears[n - 1]);
    }
  }

  lemma FirstNearIsLeast<N>(kept: seq<nat>, nears: seq<N>, near: N, j: nat)
    requires forall k :: 0 <= k < |kept| ==> kept[k] < |nears|
    requires forall a, b :: 0 <= a < b < |kept| ==> kept[a] < kept[b]
    requires j in kept && nears[j] == near
    ensures near in Pick(nears, kept) && kept[FirstIndex(Pick(nears, kept), near)] <= j
  {
    var m :| 0 <= m < |kept| && kept[m] == j;
    assert Pick(nears, kept)[m] == near;
    FirstIndexIsLeast(Pick(nears, kept), near, m);
  }

  lemma {:induction false} FirstIndexIsLeast<K>(keys: seq<K>, key: K, m: nat)
    requires m < |keys| && keys[m] == key
    ensures FirstIndex(keys, key) <= m
  {
    if keys[0] != key {
      FirstIndexIsLeast(keys[1..], key, m - 1);
    }
  }

  /** Suppressed indices and warned indices rise strictly, so that each is named once. */
  lemma {:induction false} ListsRiseStrictly<K, N>(keys: seq<K>, nears: seq<N>)
    requires |keys| == |nears|
    ensures forall m :: m in Suppressed(keys) + Warnings(keys, nears) ==> m.index < |keys|
    ensures forall a, b :: 0 <= a < b < |Suppressed(keys)| ==> Suppressed(keys)[a].index < Suppressed(keys)[b].index
    ensures forall a, b :: 0 <= a < b < |Warnings(keys, nears)| ==>
              Warnings(keys, nears)[a].index < Warnings(keys, nears)[b].index
  {
    if keys != [] {
      var n := |keys| - 1;
      ListsRiseStrictly(keys[..n], nears[..n]);
      assert forall m :: m in Suppressed(keys[..n]) ==> m in Suppressed(keys[..n]) + Warnings(keys[..n], nears[..n]);
      assert forall m :: m in Warnings(keys[..n], nears[..n]) ==>
        m in Suppressed(keys[..n]) + Warnings(keys[..n], nears[..n]);
    }
  }

  /** And every kept index with an earlier kept index of the same near key is warned about. */
  lemma {:induction false} EveryNearMissIsWarnedAbout<K, N>(keys: seq<K>, nears: seq<N>, i: nat, j: nat)
    requires j < i < |keys| == |nears|
    requires i in Kept(keys) && j in Kept(keys) && nears[j] == nears[i]
    ensures exists w :: w in Warnings(keys, nears) && w.index == i
  {
    var n := |keys| - 1;
    var kept := Kept(keys[..n]);
    if i < n {
      EveryNearMissIsWarnedAbout(keys[..n], nears[..n], i, j);
      var w :| w in Warnings(keys[..n], nears[..n]) && w.index == i;
      assert w in Warnings(keys, nears);
    } else {
      var k :| 0 <= k < |kept| && kept[k] == j;
      var seen := Pick(nears[..n], kept);
      assert seen[k] == nears[n];
      assert keys[n] !in keys[..n];
      assert Match(n, kept[FirstIndex(seen, nears[n])]) in Warnings(keys, nears);
    }
  }

  function Indices(matches: seq<Match>): (indices: seq<nat>)
    ensures |indices| == |matches|
    ensures forall k :: 0 <= k < |matches| ==> indices[k] == matches[k].index
  {
    seq(|matches|, k requires 0 <= k < |matches| => matches[k].index)
  }

  lemma PickPushed<T>(items: seq<T>, item: T, indices: seq<nat>)
    requires forall k :: 0 <= k < |indices| ==> indices[k] < |items|
    ensures Pick(items + [item], indices) == Pick(items, indices)
    ensures Pick(items + [item], indices + [|items|]) == Pick(items, indices) + [item]
  {
  }

  ghost predicate IsConserved<T, K>(gross: T -> int, items: seq<T>, keys: seq<K>) {
    && |items| == |keys|
    && (forall k :: 0 <= k < |Indices(Suppressed(keys))| ==> Indices(Suppressed(keys))[k] < |items|)
    && SumBy(gross, Pick(items, Kept(keys))) + SumBy(gross, Pick(items, Indices(Suppressed(keys))))
       == SumBy(gross, items)
  }

  lemma PickedTotalPushed<T>(gross: T -> int, items: seq<T>, item: T, indices: seq<nat>)
    requires forall k :: 0 <= k < |indices| ==> indices[k] < |items|
    ensures SumBy(gross, Pick(items + [item], indices)) == SumBy(gross, Pick(items, indices))
    ensures SumBy(gross, Pick(items + [item], indices + [|items|])) == SumBy(gross, Pick(items, indices)) + gross(item)
  {
    PickPushed(items, item, indices);
    SumByPush(gross, Pick(items, indices), item);
  }

  lemma SuppressedIndicesPushed<K>(keys: seq<K>, key: K)
    ensures Indices(Suppressed(keys + [key])) == Indices(Suppressed(keys)) + (if key in keys then [|keys|] else [])
  {
    KeyPushed(keys, key);
    assert Indices(Suppressed(keys)) + [] == Indices(Suppressed(keys));
  }

  lemma OneMoreIsConserved<T, K>(gross: T -> int, items: seq<T>, keys: seq<K>, item: T, key: K)
    requires IsConserved(gross, items, keys)
    ensures IsConserved(gross, items + [item], keys + [key])
  {
    KeyPushed(keys, key);
    SuppressedIndicesPushed(keys, key);
    PickedTotalPushed(gross, items, item, Kept(keys));
    PickedTotalPushed(gross, items, item, Indices(Suppressed(keys)));
    SumByPush(gross, items, item);
  }

  /** No money is lost or invented: what is kept and what is suppressed add up to what came in. */
  lemma {:induction false} GrossIsConserved<T, K>(gross: T -> int, items: seq<T>, keys: seq<K>)
    requires |items| == |keys|
    ensures forall k :: 0 <= k < |Indices(Suppressed(keys))| ==> Indices(Suppressed(keys))[k] < |items|
    ensures SumBy(gross, Pick(items, Kept(keys))) + SumBy(gross, Pick(items, Indices(Suppressed(keys))))
       == SumBy(gross, items)
  {
    EveryPrefixIsConserved(gross, items, keys, |keys|);
    assert items[..|keys|] == items && keys[..|keys|] == keys;
  }

  lemma {:induction false} EveryPrefixIsConserved<T, K>(gross: T -> int, items: seq<T>, keys: seq<K>, n: nat)
    requires |items| == |keys| && n <= |keys|
    ensures IsConserved(gross, items[..n], keys[..n])
  {
    if n > 0 {
      EveryPrefixIsConserved(gross, items, keys, n - 1);
      PrefixGrows(items, n - 1);
      PrefixGrows(keys, n - 1);
      OneMoreIsConserved(gross, items[..n - 1], keys[..n - 1], items[n - 1], keys[n - 1]);
    }
  }

  /** Distinct keys are all kept, and nothing is suppressed. */
  lemma {:induction false} DistinctKeysAreAllKept<K>(keys: seq<K>)
    requires forall a, b :: 0 <= a < b < |keys| ==> keys[a] != keys[b]
    ensures Kept(keys) == Upto(|keys|) && Suppressed(keys) == []
  {
    if keys != [] {
      DistinctKeysAreAllKept(keys[..|keys| - 1]);
    }
  }

  /** A second run over what survived keeps everything. */
  lemma SecondRunKeepsEverything(items: seq<ExtractedItem>)
    ensures Deduplicated(FilterOut(items)).kept == Upto(|FilterOut(items)|)
    ensures Deduplicated(FilterOut(items)).suppressed == []
  {
    KeptIsStrictlyIncreasing(Fingerprints(items));
    DistinctKeysAreAllKept(Fingerprints(FilterOut(items)));
  }

  // The joined key

  lemma FirstBarSplits(a: string, rest: string, b: string, rest': string)
    requires '|' !in a && '|' !in b
    requires a + ['|'] + rest == b + ['|'] + rest'
    ensures a == b && rest == rest'
  {
    var s, t := a + ['|'] + rest, b + ['|'] + rest';
    assert s[|a|] == '|' && t[|b|] == '|';
    assert forall i :: 0 <= i < |a| ==> s[i] == a[i];
    assert forall i :: 0 <= i < |b| ==> t[i] == b[i];
    assert |a| == |b|;
    assert a == s[..|a|] && b == t[..|b|];
    assert rest == s[|a| + 1..] && rest' == t[|b| + 1..];
  }

  lemma PlainHasNoBar(amount: int)
    ensures '|' !in Plain(amount)
  {
    PlainNaturalHasNoBar(Size(amount));
  }

  lemma PlainNaturalHasNoBar(amount: nat)
    ensures '|' !in PlainNatural(amount)
  {
    assert forall c :: c in Digits(amount / 100) ==> IsDigit(c);
    assert forall c :: c in TwoDigits(amount % 100) ==> IsDigit(c);
  }

  /** Two items are of one time: timestamped ones by their timestamps alone, others by their dates. */
  predicate SameTime(x: ExtractedItem, y: ExtractedItem) {
    match (x.txnDatetime, y.txnDatetime)
    case (Some(t), Some(u)) => t.iso == u.iso
    case (Some(t), None) => y.txnDate.Some? && t.iso == y.txnDate.value.iso
    case (None, Some(u)) => x.txnDate.Some? && x.txnDate.value.iso == u.iso
    case (None, None) => SameDate(x.txnDate, y.txnDate)
  }

  predicate SameDate(a: Option<Day>, b: Option<Day>) {
    (a.None? && b.None?) || (a.Some? && b.Some? && a.value.iso == b.value.iso)
  }

  /** Two items are of one day: by the date stated, or else that of the timestamp. */
  predicate SameDay(x: ExtractedItem, y: ExtractedItem) {
    match (x.txnDate, y.txnDate)
    case (Some(d), Some(e)) => d.iso == e.iso
    case (Some(d), None) => y.txnDatetime.Some? && d.iso == y.txnDatetime.value.day.iso
    case (None, Some(e)) => x.txnDatetime.Some? && x.txnDatetime.value.day.iso == e.iso
    case (None, None) =>
      || (x.txnDatetime.None? && y.txnDatetime.None?)
      || (x.txnDatetime.Some? && y.txnDatetime.Some? && x.txnDatetime.value.day.iso == y.txnDatetime.value.day.iso)
  }

  /**
   * The joined string loses nothing: two items have one fingerprint exactly when their normalised
   * merchant, their time, their amount and their normalised bill number all agree. The bill number
   * may itself contain a bar; it is the last field.
   */
  lemma FingerprintIsExact(x: ExtractedItem, y: ExtractedItem)
    ensures Fingerprint(x) == Fingerprint(y)
       <==> && NormaliseMerchant(x.merchant) == NormaliseMerchant(y.merchant)
            && SameTime(x, y)
            && x.gross == y.gross
            && NormaliseBillNo(x.billNo) == NormaliseBillNo(y.billNo)
  {
    if Fingerprint(x) == Fingerprint(y) {
      PlainHasNoBar(x.gross);
      PlainHasNoBar(y.gross);
      JoinIsInjective(NormaliseMerchant(x.merchant), When(x), Plain(x.gross), NormaliseBillNo(x.billNo),
                      NormaliseMerchant(y.merchant), When(y), Plain(y.gross), NormaliseBillNo(y.billNo));
      PlainIsInjective(x.gross, y.gross);
    }
  }

  lemma NearKeyIsExact(x: ExtractedItem, y: ExtractedItem)
    ensures NearKeyOf(x) == NearKeyOf(y)
       <==> NormaliseMerchant(x.merchant) == NormaliseMerchant(y.merchant) && SameDay(x, y) && x.gross == y.gross
  {
  }

  /** What is suppressed repeats its original in all four fields. */
  lemma SuppressedIsTheSameTransaction(items: seq<ExtractedItem>, m: Match)
    requires m in Deduplicated(items).suppressed
    ensures m.duplicateOf < m.index < |items|
    ensures var x, y := items[m.duplicateOf], items[m.index];
      && NormaliseMerchant(x.merchant) == NormaliseMerchant(y.merchant) && SameTime(x, y)
      && x.gross == y.gross && NormaliseBillNo(x.billNo) == NormaliseBillNo(y.billNo)
  {
    SuppressedMatches(Fingerprints(items));
    FingerprintIsExact(items[m.duplicateOf], items[m.index]);
  }

  /** What is warned about is of one merchant, day and amount, but of another time or bill. */
  lemma WarnedIsANearMiss(items: seq<ExtractedItem>, w: Match)
    requires w in Deduplicated(items).warnings
    ensures w.duplicateOf < w.index < |items|
    ensures var x, y := items[w.duplicateOf], items[w.index];
      && NormaliseMerchant(x.merchant) == NormaliseMerchant(y.merchant) && SameDay(x, y) && x.gross == y.gross
      && !(SameTime(x, y) && NormaliseBillNo(x.billNo) == NormaliseBillNo(y.billNo))
  {
    WarningsAreNearMisses(Fingerprints(items), NearKeys(items));
    NearKeyIsExact(items[w.duplicateOf], items[w.index]);
    FingerprintIsExact(items[w.duplicateOf], items[w.index]);
  }

  lemma NearMissesAreKept(x: ExtractedItem, y: ExtractedItem)
    requires Fingerprint(x) != Fingerprint(y) && NearKeyOf(x) == NearKeyOf(y)
    ensures Deduplicated([x, y]) == DedupResult([0, 1], [], [Match(1, 0)])
  {
    FingerprintsOfTwo(x, y);
    NearKeysOfTwo(x, y);
    TwoKeys(Fingerprint(x), Fingerprint(y), NearKeyOf(x));
  }

  lemma FingerprintsOfTwo(x: ExtractedItem, y: ExtractedItem)
    ensures Fingerprints([x, y]) == [Fingerprint(x), Fingerprint(y)]
  {
  }

  lemma NearKeysOfTwo(x: ExtractedItem, y: ExtractedItem)
    ensures NearKeys([x, y]) == [NearKeyOf(x), NearKeyOf(y)]
  {
  }

  /** Two rides of one merchant, fare and day at different times are both kept, with a warning. */
  lemma RidesAtDifferentTimesAreKept(x: ExtractedItem, y: ExtractedItem)
    requires x.merchant == y.merchant && x.gross == y.gross && x.txnDate == y.txnDate
    requires x.txnDatetime.Some? && y.txnDatetime.Some?
    requires x.txnDatetime.value.day == y.txnDatetime.value.day && x.txnDatetime.value.iso != y.txnDatetime.value.iso
    ensures Deduplicated([x, y]) == DedupResult([0, 1], [], [Match(1, 0)])
  {
    NearMissesAreKept(x, y) by {
      FingerprintIsExact(x, y);
      NearKeyIsExact(x, y);
    }
  }

  lemma OneKey<K, N>(key: K, near: N)
    ensures Kept([key]) == [0] && Suppressed([key]) == [] && Warnings([key], [near]) == []
  {
    assert [key][..0] == [] && [near][..0] == [];
  }

  lemma TwoKeys<K, N>(a: K, b: K, near: N)
    requires a != b
    ensures Kept([a, b]) == [0, 1] && Suppressed([a, b]) == [] && Warnings([a, b], [near, near]) == [Match(1, 0)]
  {
    OneKey(a, near);
    assert [a, b] == [a] + [b] && [near, near] == [near] + [near];
    KeyPushed([a], b);
    NearPushed([a], b, [near], near);
    assert Pick([near], [0]) == [near];
    assert FirstIndex([near], near) == 0;
  }

  // Normalised names and numbers

  lemma KeepAlphanumericConcat(s: string, t: string)
    ensures KeepAlphanumeric(s + t) == KeepAlphanumeric(s) + KeepAlphanumeric(t)
  {
    if t == [] {
      assert s + t == s;
    } else {
      var n := |t| - 1;
      assert (s + t)[..|s + t| - 1] == s + t[..n];
      KeepAlphanumericConcat(s, t[..n]);
    }
  }

  lemma LowerAllConcat(s: string, t: string)
    ensures LowerAll(s + t) == LowerAll(s) + LowerAll(t)
  {
  }

  lemma MerchantConcat(before: string, after: string)
    ensures NormaliseMerchant(Some(before + after)) == NormaliseMerchant(Some(before)) + NormaliseMerchant(Some(after))
  {
    LowerAllConcat(before, after);
    KeepAlphanumericConcat(LowerAll(before), LowerAll(after));
  }

  lemma MerchantInParts(before: string, c: char, after: string)
    ensures NormaliseMerchant(Some(before + [c] + after))
         == NormaliseMerchant(Some(before)) + NormaliseMerchant(Some([c])) + NormaliseMerchant(Some(after))
  {
    MerchantConcat(before + [c], after);
    MerchantConcat(before, [c]);
  }

  lemma MerchantOfOne(c: char)
    ensures NormaliseMerchant(Some([c])) == if IsAlphanumeric(Lower(c)) then [Lower(c)] else []
  {
    assert LowerAll([c]) == [Lower(c)];
    KeepOne(Lower(c));
  }

  lemma KeepOne(c: char)
    ensures KeepAlphanumeric([c]) == if IsAlphanumeric(c) then [c] else []
  {
    assert [c][..0] == [];
    assert KeepAlphanumeric([c][..0]) == [];
  }

  /** Anything but a letter or a digit makes no difference to a merchant's name. */
  lemma MerchantIgnoresMarks(before: string, c: char, after: string)
    requires !('a' <= c <= 'z' || 'A' <= c <= 'Z' || '0' <= c <= '9')
    ensures NormaliseMerchant(Some(before + [c] + after)) == NormaliseMerchant(Some(before + after))
  {
    MerchantInParts(before, c, after);
    MerchantOfOne(c);
    MerchantConcat(before, after);
  }

  /** Nor does case. */
  lemma MerchantIgnoresCase(before: string, c: char, after: string)
    requires 'A' <= c <= 'Z'
    ensures NormaliseMerchant(Some(before + [c] + after))
         == NormaliseMerchant(Some(before + [(c as int + 32) as char] + after))
  {
    var lower := (c as int + 32) as char;
    MerchantInParts(before, c, after);
    MerchantInParts(before, lower, after);
    MerchantOfOne(c);
    MerchantOfOne(lower);
  }

  /** Every lower-case letter and every digit counts. */
  lemma {:induction false} PlainMerchantIsKept(s: string)
    requires forall i :: 0 <= i < |s| ==> 'a' <= s[i] <= 'z' || '0' <= s[i] <= '9'
    ensures NormaliseMerchant(Some(s)) == s
  {
    assert LowerAll(s) == s;
    if s != [] {
      PlainMerchantIsKept(s[..|s| - 1]);
      assert LowerAll(s[..|s| - 1]) == s[..|s| - 1];
    }
  }

  /** A bill number is itself but for case and the white space around it. */
  lemma BillNoIgnoresCaseAndPadding(s: string, c: char)
    ensures IsBlank(c) ==>
              NormaliseBillNo(Some([c] + s)) == NormaliseBillNo(Some(s)) == NormaliseBillNo(Some(s + [c]))
    ensures (s == [] || (!IsBlank(s[0]) && !IsBlank(s[|s| - 1]))) ==>
              && |NormaliseBillNo(Some(s))| == |s|
              && forall i :: 0 <= i < |s| ==>
                   NormaliseBillNo(Some(s))[i] == if 'A' <= s[i] <= 'Z' then (s[i] as int + 32) as char else s[i]
    ensures NormaliseBillNo(None) == ""
  {
    BlankIsSpace(c);
    if s != [] {
      BlankIsSpace(s[0]);
      BlankIsSpace(s[|s| - 1]);
    }
    StripDropsPadding(s, c);
  }

  lemma JoinIsInjective(a: string, b: string, c: string, d: string, a': string, b': string, c': string, d': string)
    requires '|' !in a && '|' !in b && '|' !in c && '|' !in a' && '|' !in b' && '|' !in c'
    requires JoinFields(a, b, c, d) == JoinFields(a', b', c', d')
    ensures a == a' && b == b' && c == c' && d == d'
  {
    FirstBarSplits(a, b + ['|'] + (c + ['|'] + d), a', b' + ['|'] + (c' + ['|'] + d'));
    FirstBarSplits(b, c + ['|'] + d, b', c' + ['|'] + d');
    FirstBarSplits(c, d, c', d');
  }

  /**
   * Two different lines of one bill with equal amounts share every field of the key, so the second
   * is suppressed and its amount never reaches the claim: the description takes no part.
   */
  lemma EqualAmountsOfOneBillMerge(first: ExtractedItem, other: string)
    ensures Deduplicated([first, first.(description := other)]).kept == [0]
    ensures SumBy(GrossOf(), FilterOut([first, first.(description := other)])) == first.gross
  {
    var items := [first, first.(description := other)];
    var keys := Fingerprints(items);
    FingerprintIsExact(items[0], items[1]);
    assert keys[..1] == [Fingerprint(first)] && keys[..1][..0] == [];
    assert Kept(keys[..1]) == [0];
    assert Kept(keys) == [0];
    assert FilterOut(items) == [first];
    assert [first][..0] == [];
  }
}
