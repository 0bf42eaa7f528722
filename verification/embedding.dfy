/** getEmbedding: one call of the model on a single padded, masked window, and
    the chunked loop that embeds a token list of any length window by window. */
module Embedding {
  import opened Wrappers
  import opened Collaborators
  import opened Chunking

  function Zeros(n: nat): (r: seq<int>)
    ensures |r| == n && forall x :: 0 <= x < n ==> r[x] == 0
  {
    seq(n, _ => 0)
  }

  function Ones(n: nat): (r: seq<int>)
    ensures |r| == n && forall x :: 0 <= x < n ==> r[x] == 1
  {
    seq(n, _ => 1)
  }

  /** The input_ids window: the token ids, then zero padding up to INPUT_LENGTH. */
  function PaddedIds(tokens: seq<int>): (r: seq<int>)
    requires |tokens| <= InputLength
    ensures |r| == InputLength
    ensures forall x :: 0 <= x < |tokens| ==> r[x] == tokens[x]
    ensures forall x :: |tokens| <= x < InputLength ==> r[x] == 0
  {
    tokens + Zeros(InputLength - |tokens|)
  }

  /** The attention_mask window: 1 on the first `count` positions, 0 on the padding. */
  function AttentionMask(count: nat): (r: seq<int>)
    requires count <= InputLength
    ensures |r| == InputLength
    ensures forall x :: 0 <= x < count ==> r[x] == 1
    ensures forall x :: count <= x < InputLength ==> r[x] == 0
  {
    Ones(count) + Zeros(InputLength - count)
  }

  /** The ids at the positions the mask marks active, in order: what the model actually attends to. */
  function ActiveIds(ids: seq<int>, mask: seq<int>): seq<int>
    requires |ids| == |mask|
  {
    if |ids| == 0 then []
    else (if mask[0] == 1 then [ids[0]] else []) + ActiveIds(ids[1..], mask[1..])
  }

  lemma {:induction false} ActiveIdsAppend(a: seq<int>, ma: seq<int>, b: seq<int>, mb: seq<int>)
    requires |a| == |ma| && |b| == |mb|
    ensures ActiveIds(a + b, ma + mb) == ActiveIds(a, ma) + ActiveIds(b, mb)
    decreases |a|
  {
    if |a| > 0 {
      assert (a + b)[1..] == a[1..] + b;
      assert (ma + mb)[1..] == ma[1..] + mb;
      ActiveIdsAppend(a[1..], ma[1..], b, mb);
    } else {
      assert a + b == b && ma + mb == mb;
    }
  }

  lemma {:induction false} ActiveIdsAll(a: seq<int>, m: seq<int>)
    requires |a| == |m| && forall x :: 0 <= x < |m| ==> m[x] == 1
    ensures ActiveIds(a, m) == a
    decreases |a|
  {
    if |a| > 0 {
      ActiveIdsAll(a[1..], m[1..]);
    }
  }

  lemma {:induction false} ActiveIdsNone(a: seq<int>, m: seq<int>)
    requires |a| == |m| && forall x :: 0 <= x < |m| ==> m[x] == 0
    ensures ActiveIds(a, m) == []
    decreases |a|
  {
    if |a| > 0 {
      ActiveIdsNone(a[1..], m[1..]);
    }
  }

  /** Padding and masking lose nothing and add nothing: the active ids are exactly the tokens. */
  lemma PaddingRoundTrip(tokens: seq<int>)
    requires |tokens| <= InputLength
    ensures ActiveIds(PaddedIds(tokens), AttentionMask(|tokens|)) == tokens
  {
    var n := |tokens|;
    ActiveIdsAppend(tokens, Ones(n), Zeros(InputLength - n), Zeros(InputLength - n));
    ActiveIdsAll(tokens, Ones(n));
    ActiveIdsNone(Zeros(InputLength - n), Zeros(InputLength - n));
    assert tokens + [] == tokens;
  }

  /** The input-building part of getEmbedding: both MLMultiArrays start zeroed and the loop writes the id and a 1 at every token position. */
  method BuildModelInput(tokens: seq<int>) returns (input: seq<int>, mask: seq<int>)
    requires |tokens| <= InputLength
    ensures input == PaddedIds(tokens)
    ensures mask == AttentionMask(|tokens|)
  {
    input := Zeros(InputLength);
    mask := Zeros(InputLength);
    for x := 0 to |tokens|
      invariant |input| == InputLength && |mask| == InputLength
      invariant forall y :: 0 <= y < x ==> input[y] == tokens[y] && mask[y] == 1
      invariant forall y :: x <= y < InputLength ==> input[y] == 0 && mask[y] == 0
    {
      input := input[x := tokens[x]];
      mask := mask[x := 1];
    }
  }

  /** getEmbedding: rejects more than INPUT_LENGTH tokens; otherwise returns the model's
      hidden-state rows for the active positions only, one per token. */
  function GetEmbedding(predict: (seq<int>, seq<int>, nat) -> Vec, tokens: seq<int>): (r: Result<seq<Vec>, Error>)
    ensures r.Failure? <==> |tokens| > InputLength
    ensures r.Failure? ==> r.error == InputTooLong(|tokens|, InputLength)
    ensures r.Success? ==> |r.value| == |tokens|
    ensures r.Success? ==> forall i :: 0 <= i < |tokens| ==>
              r.value[i] == predict(PaddedIds(tokens), AttentionMask(|tokens|), i)
  {
    if |tokens| > InputLength then
      Failure(InputTooLong(|tokens|, InputLength))
    else
      var input := PaddedIds(tokens);
      var mask := AttentionMask(|tokens|);
      Success(seq(|tokens|, i requires 0 <= i < |tokens| => predict(input, mask, i)))
  }

  /** The stride loop of addDocument and getLocalKeywords: one getEmbedding call per chunk, in
      order; the first chunk the model rejects aborts the whole call. */
  function EmbedChunks(predict: (seq<int>, seq<int>, nat) -> Vec, chunks: seq<seq<int>>): (r: Result<seq<seq<Vec>>, Error>)
    ensures r.Success? <==> forall i :: 0 <= i < |chunks| ==> |chunks[i]| <= InputLength
    ensures r.Success? ==> |r.value| == |chunks|
    ensures r.Success? ==> forall i :: 0 <= i < |chunks| ==> r.value[i] == GetEmbedding(predict, chunks[i]).value
    ensures r.Failure? ==>
              exists i ::
                && 0 <= i < |chunks|
                && |chunks[i]| > InputLength
                && r.error == InputTooLong(|chunks[i]|, InputLength)
                && forall j :: 0 <= j < i ==> |chunks[j]| <= InputLength
    decreases |chunks|
  {
    if |chunks| == 0 then Success([])
    else
      var first :- GetEmbedding(predict, chunks[0]);
      var rest :- EmbedChunks(predict, chunks[1..]);
      Success([first] + rest)
  }

  /** Batches of the same lengths as the chunks flatten to as many vectors as there are tokens. */
  lemma {:induction false} FlattenSameShape<T, U>(a: seq<seq<T>>, b: seq<seq<U>>)
    requires |a| == |b| && forall i :: 0 <= i < |a| ==> |a[i]| == |b[i]|
    ensures |Flatten(a)| == |Flatten(b)|
    decreases |a|
  {
    if |a| > 0 {
      FlattenSameShape(a[1..], b[1..]);
    }
  }

  /** All tokens of a text, embedded window by window and concatenated: one vector per token. */
  function EmbedTokens(predict: (seq<int>, seq<int>, nat) -> Vec, tokens: seq<int>): (r: Result<seq<Vec>, Error>)
    ensures r.Success? && |r.value| == |tokens|
  {
    var batches := EmbedChunks(predict, Chunks(tokens)).value;
    FlattenSameShape(batches, Chunks(tokens));
    Success(Flatten(batches))
  }

  /** Vector p of a chunked embedding is row p mod INPUT_LENGTH of the model's output on the
      window containing token p. */
  lemma {:induction false} EmbedTokensRow(predict: (seq<int>, seq<int>, nat) -> Vec, tokens: seq<int>, p: nat)
    requires p < |tokens|
    ensures (p / InputLength) * InputLength <= p < |tokens|
    ensures var w := Window(tokens, (p / InputLength) * InputLength);
            EmbedTokens(predict, tokens).value[p]
              == predict(PaddedIds(w), AttentionMask(|w|), p % InputLength)
    decreases p
  {
    var w := Window(tokens, 0);
    var rest := tokens[|w|..];
    assert Chunks(tokens) == [w] + Chunks(rest);
    var first := GetEmbedding(predict, w).value;
    assert EmbedChunks(predict, Chunks(tokens)).value == [first] + EmbedChunks(predict, Chunks(rest)).value;
    assert EmbedTokens(predict, tokens).value == first + EmbedTokens(predict, rest).value;
    if p < InputLength {
      assert p / InputLength == 0 && p % InputLength == p;
    } else {
      assert |w| == InputLength;
      var q := p - InputLength;
      EmbedTokensRow(predict, rest, q);
      assert q / InputLength == p / InputLength - 1 && q % InputLength == p % InputLength;
      WindowShift(tokens, InputLength, (q / InputLength) * InputLength);
    }
  }

  /** A token list that fits one window is embedded by a single getEmbedding call. */
  lemma SingleWindow(predict: (seq<int>, seq<int>, nat) -> Vec, tokens: seq<int>)
    requires |tokens| <= InputLength
    ensures EmbedTokens(predict, tokens) == GetEmbedding(predict, tokens)
  {
    if |tokens| > 0 {
      assert Window(tokens, 0) == tokens;
      assert tokens[|tokens|..] == [];
      assert Chunks(tokens) == [tokens];
      assert EmbedChunks(predict, Chunks(tokens)).value == [GetEmbedding(predict, tokens).value];
      assert GetEmbedding(predict, tokens).value + [] == GetEmbedding(predict, tokens).value;
    }
  }
}
