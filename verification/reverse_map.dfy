/** The embeddingToWord dictionary, keyed by vector value, and the loop that records a
    batch of vectors in it. */
module ReverseMap {
  import opened Collaborators

  /** The position of the last occurrence of v in vs. */
  function LastIndexOf(vs: seq<Vec>, v: Vec): (j: nat)
    requires v in vs
    ensures j < |vs| && vs[j] == v && v !in vs[j + 1..]
    decreases |vs|
  {
    var n := |vs| - 1;
    if vs[n] == v then n
    else
      assert v in vs[..n];
      LastIndexOf(vs[..n], v)
  }

  /** A vector that does not recur later in the batch is its own last occurrence. */
  lemma LastIndexOfUnique(vs: seq<Vec>, j: nat)
    requires j < |vs| && vs[j] !in vs[j + 1..]
    ensures LastIndexOf(vs, vs[j]) == j
  {
    var k := LastIndexOf(vs, vs[j]);
    forall i | j < i < |vs|
      ensures vs[i] != vs[j]
    {
      assert vs[i] == vs[j + 1..][i - j - 1];
    }
    forall i | k < i < |vs|
      ensures vs[i] != vs[k]
    {
      assert vs[i] == vs[k + 1..][i - k - 1];
    }
  }

  /** `for i in 0..<vectors.count { map[vectors[i]] = words[i] }`, one write per vector in order. */
  function RecordWords(m: map<Vec, string>, vectors: seq<Vec>, words: seq<string>): map<Vec, string>
    requires |vectors| == |words|
    decreases |vectors|
  {
    if |vectors| == 0 then m
    else
      var n := |vectors| - 1;
      RecordWords(m, vectors[..n], words[..n])[vectors[n] := words[n]]
  }

  /** Each write overwrites any earlier entry for an equal vector, so the last writer wins:
      the keys grow by exactly the recorded vectors, every recorded vector maps to the word
      of its last occurrence, and every other entry is unchanged. */
  lemma {:induction false} RecordWordsSpec(m: map<Vec, string>, vectors: seq<Vec>, words: seq<string>)
    requires |vectors| == |words|
    ensures RecordWords(m, vectors, words).Keys == m.Keys + (set v | v in vectors)
    ensures forall v :: v in m && v !in vectors ==> RecordWords(m, vectors, words)[v] == m[v]
    ensures forall v :: v in vectors ==> RecordWords(m, vectors, words)[v] == words[LastIndexOf(vectors, v)]
    decreases |vectors|
  {
    if |vectors| > 0 {
      var n := |vectors| - 1;
      RecordWordsSpec(m, vectors[..n], words[..n]);
      assert forall v :: v in vectors ==> v in vectors[..n] || v == vectors[n];
    }
  }

  /** The values written are drawn from the words: nothing else enters the map. */
  lemma RecordWordsValues(m: map<Vec, string>, vectors: seq<Vec>, words: seq<string>)
    requires |vectors| == |words|
    ensures forall v :: v in RecordWords(m, vectors, words) ==>
              RecordWords(m, vectors, words)[v] in m.Values || RecordWords(m, vectors, words)[v] in words
  {
    RecordWordsSpec(m, vectors, words);
    var r := RecordWords(m, vectors, words);
    forall v | v in r
      ensures r[v] in m.Values || r[v] in words
    {
      if v in vectors {
        assert r[v] == words[LastIndexOf(vectors, v)];
      } else {
        assert r[v] == m[v];
      }
    }
  }

  /** Recording two batches one after the other is recording their concatenation. */
  lemma {:induction false} RecordWordsAppend(m: map<Vec, string>, a: seq<Vec>, wa: seq<string>, b: seq<Vec>, wb: seq<string>)
    requires |a| == |wa| && |b| == |wb|
    ensures RecordWords(RecordWords(m, a, wa), b, wb) == RecordWords(m, a + b, wa + wb)
    decreases |b|
  {
    if |b| == 0 {
      assert a + b == a && wa + wb == wa;
    } else {
      var n := |b| - 1;
      RecordWordsAppend(m, a, wa, b[..n], wb[..n]);
      var ab, wab := a + b, wa + wb;
      assert ab[..|a| + n] == a + b[..n];
      assert wab[..|wa| + n] == wa + wb[..n];
      assert ab[|a| + n] == b[n] && wab[|wa| + n] == wb[n];
      calc {
        RecordWords(RecordWords(m, a, wa), b, wb);
        RecordWords(RecordWords(m, a, wa), b[..n], wb[..n])[b[n] := wb[n]];
        RecordWords(m, a + b[..n], wa + wb[..n])[b[n] := wb[n]];
        RecordWords(m, ab[..|a| + n], wab[..|wa| + n])[ab[|a| + n] := wab[|wa| + n]];
        RecordWords(m, ab, wab);
      }
    }
  }
}
