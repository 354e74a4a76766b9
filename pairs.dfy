/**
 * Sequences of key/value writes and the dictionary they leave behind: a
 * Python loop of `d[k] = v` (or `dict(zip(keys, values))`) where a later
 * write to a key replaces an earlier one.
 */
module Pairs {
  /** The chunks one after the other. */
  function Concat<T>(chunks: seq<seq<T>>): seq<T> {
    if chunks == [] then [] else Concat(chunks[..|chunks| - 1]) + chunks[|chunks| - 1]
  }

  /** Concatenation distributes over appending chunk lists. */
  lemma {:induction false} ConcatAppend<T>(a: seq<seq<T>>, b: seq<seq<T>>)
    ensures Concat(a + b) == Concat(a) + Concat(b)
  {
    if b == [] {
      assert a + b == a;
    } else {
      var init, last := b[..|b| - 1], b[|b| - 1];
      assert (a + b)[..|a + b| - 1] == a + init;
      assert (a + b)[|a + b| - 1] == last;
      assert Concat(a + b) == Concat(a + init) + last;
      ConcatAppend(a, init);
      assert Concat(b) == Concat(init) + last;
    }
  }

  /** A single chunk concatenates to itself. */
  lemma ConcatOne<T>(x: seq<T>)
    ensures Concat([x]) == x
  {
    assert [x][..0] == [];
  }

  /** Every element of the concatenation comes from one of the chunks. */
  lemma {:induction false} ConcatMember<T>(chunks: seq<seq<T>>, x: T)
    requires x in Concat(chunks)
    ensures exists i :: 0 <= i < |chunks| && x in chunks[i]
  {
    if x !in chunks[|chunks| - 1] {
      ConcatMember(chunks[..|chunks| - 1], x);
      var i :| 0 <= i < |chunks| - 1 && x in chunks[..|chunks| - 1][i];
      assert chunks[..|chunks| - 1][i] == chunks[i];
    }
  }

  /** Every element of a chunk is in the concatenation. */
  lemma {:induction false} ConcatContains<T>(chunks: seq<seq<T>>, i: nat, x: T)
    requires i < |chunks| && x in chunks[i]
    ensures x in Concat(chunks)
  {
    if i < |chunks| - 1 {
      ConcatContains(chunks[..|chunks| - 1], i, x);
    }
  }

  /** One more chunk at the end. */
  lemma ConcatSnoc<T>(chunks: seq<seq<T>>, x: seq<T>)
    ensures Concat(chunks + [x]) == Concat(chunks) + x
  {
    assert (chunks + [x])[..|chunks|] == chunks;
  }

  /** The concatenation of a prefix one chunk longer. */
  lemma ConcatTakeOne<T>(chunks: seq<seq<T>>, j: nat)
    requires j < |chunks|
    ensures Concat(chunks[..j + 1]) == Concat(chunks[..j]) + chunks[j]
  {
    assert chunks[..j + 1][..j] == chunks[..j];
  }

  /** The concatenation around the chunk at index `j`. */
  lemma ConcatSplit<T>(chunks: seq<seq<T>>, j: nat)
    requires j < |chunks|
    ensures Concat(chunks) == Concat(chunks[..j]) + chunks[j] + Concat(chunks[j + 1..])
  {
    assert chunks == chunks[..j + 1] + chunks[j + 1..];
    ConcatAppend(chunks[..j + 1], chunks[j + 1..]);
    ConcatTakeOne(chunks, j);
  }

  /** The concatenation is empty exactly when every chunk is. */
  lemma {:induction false} ConcatEmpty<T>(chunks: seq<seq<T>>)
    ensures Concat(chunks) == [] <==> forall i :: 0 <= i < |chunks| ==> chunks[i] == []
  {
    if chunks != [] {
      var init := chunks[..|chunks| - 1];
      ConcatEmpty(init);
      assert forall i :: 0 <= i < |init| ==> init[i] == chunks[i];
    }
  }

  /** The dictionary a loop of `d[k] = v` over `pairs` leaves behind, starting from `{}`. */
  function FromPairs<K, V>(pairs: seq<(K, V)>): map<K, V> {
    if pairs == [] then map[]
    else FromPairs(pairs[..|pairs| - 1])[pairs[|pairs| - 1].0 := pairs[|pairs| - 1].1]
  }

  /** Every key written is present, and every entry present was written by some pair. */
  lemma {:induction false} FromPairsDomain<K, V>(pairs: seq<(K, V)>)
    ensures forall i :: 0 <= i < |pairs| ==> pairs[i].0 in FromPairs(pairs)
    ensures forall k :: k in FromPairs(pairs) ==> (k, FromPairs(pairs)[k]) in pairs
  {
    if pairs != [] {
      var init := pairs[..|pairs| - 1];
      FromPairsDomain(init);
      forall k | k in FromPairs(pairs) ensures (k, FromPairs(pairs)[k]) in pairs {
        if k != pairs[|pairs| - 1].0 {
          assert (k, FromPairs(init)[k]) in init;
        }
      }
    }
  }

  /** Last write wins: a key holds the value of its last pair. */
  lemma {:induction false} FromPairsLastWins<K, V>(pairs: seq<(K, V)>, i: nat)
    requires i < |pairs|
    requires forall j :: i < j < |pairs| ==> pairs[j].0 != pairs[i].0
    ensures pairs[i].0 in FromPairs(pairs) && FromPairs(pairs)[pairs[i].0] == pairs[i].1
  {
    if i < |pairs| - 1 {
      FromPairsLastWins(pairs[..|pairs| - 1], i);
    }
  }

  /** Writing `a` then `b` gives the dictionary of `a` overridden by the dictionary of `b`. */
  lemma {:induction false} FromPairsAppend<K, V>(a: seq<(K, V)>, b: seq<(K, V)>)
    ensures FromPairs(a + b) == FromPairs(a) + FromPairs(b)
  {
    if b == [] {
      assert a + b == a;
    } else {
      assert (a + b)[..|a + b| - 1] == a + b[..|b| - 1];
      FromPairsAppend(a, b[..|b| - 1]);
    }
  }

  /** One more pair is one more write. */
  lemma FromPairsSnoc<K, V>(a: seq<(K, V)>, p: (K, V))
    ensures FromPairs(a + [p]) == FromPairs(a)[p.0 := p.1]
  {
    assert (a + [p])[..|a|] == a;
  }

  /**
   * After the writes `pre` then `ps`, a key holds the value of its last pair
   * in `ps`, whatever `pre` wrote.
   */
  lemma FromPairsLastWinsAfter<K, V>(pre: seq<(K, V)>, ps: seq<(K, V)>, j: nat)
    requires j < |ps|
    requires forall k :: j < k < |ps| ==> ps[k].0 != ps[j].0
    ensures ps[j].0 in FromPairs(pre + ps) && FromPairs(pre + ps)[ps[j].0] == ps[j].1
  {
    FromPairsAppend(pre, ps);
    FromPairsLastWins(ps, j);
  }

  /** A key no pair writes is absent. */
  lemma FromPairsAbsent<K, V>(pairs: seq<(K, V)>, k: K)
    requires forall p :: p in pairs ==> p.0 != k
    ensures k !in FromPairs(pairs)
  {
    FromPairsDomain(pairs);
  }

  /**
   * When the chunk at index `j` is the single pair `p` and no later chunk
   * writes `p`'s key, the dictionary of the concatenation holds `p`.
   */
  lemma ConcatLastWins<K, V>(chunks: seq<seq<(K, V)>>, j: nat, p: (K, V))
    requires j < |chunks| && chunks[j] == [p]
    requires forall i, q :: j < i < |chunks| && q in chunks[i] ==> q.0 != p.0
    ensures p.0 in FromPairs(Concat(chunks)) && FromPairs(Concat(chunks))[p.0] == p.1
  {
    var later := Concat(chunks[j + 1..]);
    ConcatSplit(chunks, j);
    forall q | q in later ensures q.0 != p.0 {
      ConcatMember(chunks[j + 1..], q);
      var i :| 0 <= i < |chunks[j + 1..]| && q in chunks[j + 1..][i];
      assert chunks[j + 1..][i] == chunks[j + 1 + i];
    }
    FromPairsAbsent(later, p.0);
    FromPairsAppend(Concat(chunks[..j]) + [p], later);
    FromPairsSnoc(Concat(chunks[..j]), p);
  }

  /** An empty chunk changes nothing. */
  lemma ConcatDropEmpty<T>(a: seq<seq<T>>, b: seq<seq<T>>)
    ensures Concat(a + [[]] + b) == Concat(a + b)
  {
    ConcatAppend(a + [[]], b);
    ConcatAppend(a, [[]]);
    ConcatOne<T>([]);
    ConcatAppend(a, b);
  }
}
