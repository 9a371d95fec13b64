/**
 * Result records and the de-duplication `ScanWork::PublishResult` applies to
 * them before they reach the consumer.
 *
 * The code walks the record from back to front and pushes an entry to the
 * FRONT of the output when its key is not there yet. So every key keeps its
 * LAST entry, and the output lists those last entries in input order:
 * `[(K,1),(J,x),(K,2)]` becomes `[(J,x),(K,2)]`.
 */
module Results {
  import opened Util

  /** One `(key, value)` pair of a result record. */
  datatype Field = Field(key: string, value: string)

  function Keys(s: seq<Field>): (ks: seq<string>)
    ensures |ks| == |s| && forall i :: 0 <= i < |s| ==> ks[i] == s[i].key
  {
    seq(|s|, i requires 0 <= i < |s| => s[i].key)
  }

  /** Entry `i` of `s` is the last one with its key. */
  predicate IsLast(s: seq<Field>, i: int) {
    0 <= i < |s| && s[i].key !in Keys(s[i + 1..])
  }

  /** The entries of `s` whose key does not occur again later, in order. */
  function KeepLast(s: seq<Field>): seq<Field> {
    if s == [] then []
    else if s[0].key in Keys(s[1..]) then KeepLast(s[1..])
    else [s[0]] + KeepLast(s[1..])
  }

  /** The indices `i >= lo` of `s` with `IsLast(s, i)`, ascending. */
  function LastIndicesFrom(s: seq<Field>, lo: nat): seq<nat>
    requires lo <= |s|
    decreases |s| - lo
  {
    if lo == |s| then []
    else (if IsLast(s, lo) then [lo] else []) + LastIndicesFrom(s, lo + 1)
  }

  function LastIndices(s: seq<Field>): seq<nat> {
    LastIndicesFrom(s, 0)
  }

  /** De-duplication keeps exactly the keys there were. */
  lemma {:induction false} KeepLastKeys(s: seq<Field>, k: string)
    ensures k in Keys(KeepLast(s)) <==> k in Keys(s)
  {
    if s != [] {
      KeepLastKeys(s[1..], k);
      assert Keys(s) == [s[0].key] + Keys(s[1..]);
      if s[0].key !in Keys(s[1..]) {
        assert Keys(KeepLast(s)) == [s[0].key] + Keys(KeepLast(s[1..]));
      }
    }
  }

  /** No key occurs twice in a de-duplicated record. */
  lemma {:induction false} KeepLastDistinct(s: seq<Field>)
    ensures NoDup(Keys(KeepLast(s)))
  {
    if s != [] {
      KeepLastDistinct(s[1..]);
      if s[0].key !in Keys(s[1..]) {
        var r := KeepLast(s[1..]);
        KeepLastKeys(s[1..], s[0].key);
        assert Keys(KeepLast(s)) == [s[0].key] + Keys(r);
      }
    }
  }

  /** A record whose keys are already distinct is published unchanged. */
  lemma {:induction false} KeepLastOfDistinct(s: seq<Field>)
    requires NoDup(Keys(s))
    ensures KeepLast(s) == s
  {
    if s != [] {
      assert Keys(s) == [s[0].key] + Keys(s[1..]);
      assert NoDup(Keys(s[1..]));
      assert s[0].key !in Keys(s[1..]);
      KeepLastOfDistinct(s[1..]);
    }
  }

  /** `LastIndicesFrom(s, lo)` ascends through `[lo, |s|)`. */
  lemma {:induction false} LastIndicesFromAscend(s: seq<Field>, lo: nat)
    requires lo <= |s|
    ensures forall j :: 0 <= j < |LastIndicesFrom(s, lo)| ==> lo <= LastIndicesFrom(s, lo)[j] < |s|
    ensures forall j, k :: 0 <= j < k < |LastIndicesFrom(s, lo)| ==> LastIndicesFrom(s, lo)[j] < LastIndicesFrom(s, lo)[k]
    ensures forall i :: i in LastIndicesFrom(s, lo) ==> lo <= i < |s|
    decreases |s| - lo
  {
    if lo < |s| {
      LastIndicesFromAscend(s, lo + 1);
      var idx' := LastIndicesFrom(s, lo + 1);
      if IsLast(s, lo) {
        assert LastIndicesFrom(s, lo) == [lo] + idx';
      } else {
        assert LastIndicesFrom(s, lo) == idx';
      }
    }
  }

  /** `LastIndicesFrom(s, lo)` holds exactly the positions from `lo` on whose entry is the last with its key. */
  lemma {:induction false} LastIndicesFromMember(s: seq<Field>, lo: nat, i: int)
    requires lo <= i < |s|
    ensures i in LastIndicesFrom(s, lo) <==> IsLast(s, i)
    decreases |s| - lo
  {
    LastIndicesFromAscend(s, lo + 1);
    var idx' := LastIndicesFrom(s, lo + 1);
    assert LastIndicesFrom(s, lo) == (if IsLast(s, lo) then [lo] else []) + idx';
    if i > lo {
      LastIndicesFromMember(s, lo + 1, i);
    } else {
      assert lo !in idx';
    }
  }

  /** `KeepLast(s[lo..])` is `s` picked at `LastIndicesFrom(s, lo)`. */
  lemma {:induction false} KeepLastFrom(s: seq<Field>, lo: nat)
    requires lo <= |s|
    ensures |KeepLast(s[lo..])| == |LastIndicesFrom(s, lo)|
    ensures forall j :: 0 <= j < |LastIndicesFrom(s, lo)| ==>
      LastIndicesFrom(s, lo)[j] < |s| && KeepLast(s[lo..])[j] == s[LastIndicesFrom(s, lo)[j]]
    decreases |s| - lo
  {
    if lo < |s| {
      LastIndicesFromAscend(s, lo + 1);
      KeepLastFrom(s, lo + 1);
      var r', idx' := KeepLast(s[lo + 1..]), LastIndicesFrom(s, lo + 1);
      assert s[lo..][1..] == s[lo + 1..];
      assert s[lo..][0] == s[lo];
      if IsLast(s, lo) {
        assert KeepLast(s[lo..]) == [s[lo]] + r';
        assert LastIndicesFrom(s, lo) == [lo] + idx';
      } else {
        assert KeepLast(s[lo..]) == r';
        assert LastIndicesFrom(s, lo) == idx';
      }
    }
  }

  /**
   * The published record is exactly the subsequence of the input entries
   * whose key does not occur later in the input: it is `s` picked at the
   * ascending indices `LastIndices(s)`, and an index is picked exactly when
   * its entry is the last with its key.
   */
  lemma KeepLastIsLastOccurrences(s: seq<Field>)
    ensures var r, idx := KeepLast(s), LastIndices(s);
      && |r| == |idx|
      && (forall j :: 0 <= j < |idx| ==> idx[j] < |s| && r[j] == s[idx[j]])
      && (forall j, k :: 0 <= j < k < |idx| ==> idx[j] < idx[k])
      && (forall i :: 0 <= i < |s| ==> (i in idx <==> IsLast(s, i)))
  {
    LastIndicesFromAscend(s, 0);
    KeepLastFrom(s, 0);
    forall i | 0 <= i < |s|
      ensures i in LastIndices(s) <==> IsLast(s, i)
    {
      LastIndicesFromMember(s, 0, i);
    }
    assert s[0..] == s;
  }

  /** The worked case: the later `K` wins and keeps its place after `J`. */
  lemma LastOccurrenceOrder(k: string, j: string, v1: string, x: string, v2: string)
    requires k != j
    ensures KeepLast([Field(k, v1), Field(j, x), Field(k, v2)]) == [Field(j, x), Field(k, v2)]
  {
    var s := [Field(k, v1), Field(j, x), Field(k, v2)];
    assert Keys(s[1..]) == [j, k];
    assert Keys(s[2..]) == [k];
    assert s[1..][1..] == s[2..];
    assert s[2..][1..] == [];
    assert KeepLast(s[2..]) == [Field(k, v2)];
    assert KeepLast(s[1..]) == [Field(j, x), Field(k, v2)];
  }

  /**
   * The nested loop of `ScanWork::PublishResult`: back to front over `result`,
   * a linear search of `out` for the key, and `push_front` when it is absent.
   */
  method Deduplicate(result: seq<Field>) returns (out: seq<Field>)
    ensures out == KeepLast(result)
  {
    out := [];
    var i := |result|;
    while i > 0
      invariant 0 <= i <= |result|
      invariant out == KeepLast(result[i..])
    {
      i := i - 1;
      var e := result[i];
      var found := false;
      var j := 0;
      while j < |out| && !found
        invariant 0 <= j <= |out|
        invariant found <==> exists k :: 0 <= k < j && out[k].key == e.key
      {
        if out[j].key == e.key {
          found := true;
        }
        j := j + 1;
      }
      assert found <==> e.key in Keys(out);
      KeepLastKeys(result[i + 1..], e.key);
      assert result[i..][1..] == result[i + 1..];
      if !found {
        out := [e] + out;
      }
    }
    assert result[0..] == result;
  }
}
