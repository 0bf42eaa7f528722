/** tokenizeText: the tokenizer's subword tokens, keeping only those the vocabulary
    gives an id, as two parallel arrays. */
module Tokenization {
  import opened Wrappers
  import opened Collaborators

  /** The loop of tokenizeText over the tokenizer's tokens: append (id, token) for every
      token that convertTokenToId resolves, skip the rest. */
  function KnownTokens(tokenToId: string -> Option<int>, tokens: seq<string>): (r: (seq<int>, seq<string>))
    ensures |r.0| == |r.1| <= |tokens|
    ensures forall j :: 0 <= j < |r.1| ==> tokenToId(r.1[j]) == Some(r.0[j])
    ensures forall t :: t in r.1 <==> t in tokens && tokenToId(t).Some?
    decreases |tokens|
  {
    if |tokens| == 0 then ([], [])
    else
      var prefix := tokens[..|tokens| - 1];
      var last := tokens[|tokens| - 1];
      assert tokens == prefix + [last];
      var (ids, words) := KnownTokens(tokenToId, prefix);
      match tokenToId(last)
      case Some(id) => (ids + [id], words + [last])
      case None => (ids, words)
  }

  /** Tokens are kept in tokenizer order: filtering a concatenation concatenates the filtered parts. */
  lemma {:induction false} KnownTokensAppend(tokenToId: string -> Option<int>, a: seq<string>, b: seq<string>)
    ensures KnownTokens(tokenToId, a + b).0 == KnownTokens(tokenToId, a).0 + KnownTokens(tokenToId, b).0
    ensures KnownTokens(tokenToId, a + b).1 == KnownTokens(tokenToId, a).1 + KnownTokens(tokenToId, b).1
    decreases |b|
  {
    if |b| == 0 {
      assert a + b == a;
    } else {
      var b' := b[..|b| - 1];
      assert (a + b)[..|a + b| - 1] == a + b';
      assert (a + b)[|a + b| - 1] == b[|b| - 1];
      KnownTokensAppend(tokenToId, a, b');
    }
  }

  /** When every token has a vocabulary id, the words are the tokens themselves. */
  lemma {:induction false} KnownTokensAllKnown(tokenToId: string -> Option<int>, tokens: seq<string>)
    requires forall t :: t in tokens ==> tokenToId(t).Some?
    ensures KnownTokens(tokenToId, tokens).1 == tokens
    ensures forall j :: 0 <= j < |tokens| ==> Some(KnownTokens(tokenToId, tokens).0[j]) == tokenToId(tokens[j])
    decreases |tokens|
  {
    if |tokens| > 0 {
      var prefix := tokens[..|tokens| - 1];
      assert tokens == prefix + [tokens[|tokens| - 1]];
      KnownTokensAllKnown(tokenToId, prefix);
    }
  }

  /** tokenizeText: equal-length id and word arrays, words[j] being the token whose id is ids[j];
      a pure function of the text, with no effect on the engine. */
  function TokenizeText(svc: Services, text: string): (r: (seq<int>, seq<string>))
    ensures |r.0| == |r.1| <= |svc.tokenize(text)|
    ensures forall j :: 0 <= j < |r.1| ==> svc.tokenToId(r.1[j]) == Some(r.0[j])
    ensures forall t :: t in r.1 <==> t in svc.tokenize(text) && svc.tokenToId(t).Some?
  {
    KnownTokens(svc.tokenToId, svc.tokenize(text))
  }
}
