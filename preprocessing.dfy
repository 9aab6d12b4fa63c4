/**
 * The text normaliser (backend/preprocessing.py). The linguistic pipeline
 * that tokenises and lemmatises the text, and the stopword list, are outside
 * the model: their output is the input here, one `Token` per token, carrying
 * the stopword and punctuation flags and the lemma (`baseForm`).
 */
module Preprocessing {
  import opened Wrappers
  import opened Text
  import opened Seqs

  datatype Token = Token(isStop: bool, isPunct: bool, baseForm: string)

  /** A token as the normaliser emits it: non-empty, lower case, no whitespace at either end. */
  predicate IsNormalToken(w: string) {
    && w != []
    && Trimmed(w)
    && forall i :: 0 <= i < |w| ==> !IsUpper(w[i])
  }

  /**
   * One token: kept, as its lower-cased and stripped lemma, when it is neither
   * a stopword nor punctuation and the cleaned lemma is not empty.
   */
  function NormalizeToken(t: Token): (r: Option<string>)
    ensures r.Some? <==> !t.isStop && !t.isPunct && Strip(Lower(t.baseForm)) != []
    ensures r.Some? ==> r.value == Strip(Lower(t.baseForm)) && IsNormalToken(r.value)
  {
    if t.isStop || t.isPunct then None
    else
      var clean := Strip(Lower(t.baseForm));
      if clean == [] then None
      else
        StripKeepsLower(Lower(t.baseForm));
        Some(clean)
  }

  lemma StripKeepsLower(s: string)
    requires forall i :: 0 <= i < |s| ==> !IsUpper(s[i])
    ensures forall i :: 0 <= i < |Strip(s)| ==> !IsUpper(Strip(s)[i])
  {
    var r := Strip(s);
    var a, b :| StrippedAt(s, a, b) && r == s[a..b];
    assert forall i :: 0 <= i < |r| ==> r[i] == s[a + i];
  }

  /** The tokens that survive, in input order. */
  function NormalizedTokens(tokens: seq<Token>): seq<string> {
    FilterMap(tokens, NormalizeToken)
  }

  /** `preprocess`: keep and clean the tokens in a loop, then join them with single spaces. */
  method Preprocess(tokens: seq<Token>) returns (text: string)
    ensures text == Join(NormalizedTokens(tokens), " ")
  {
    var kept: seq<string> := [];
    for i := 0 to |tokens|
      invariant kept == FilterMap(tokens[..i], NormalizeToken)
    {
      assert tokens[..i + 1][..i] == tokens[..i];
      var tok := tokens[i];
      if !tok.isStop && !tok.isPunct {
        var clean := Strip(Lower(tok.baseForm));
        if clean != [] {
          kept := kept + [clean];
        }
      }
    }
    assert tokens[..|tokens|] == tokens;
    text := Join(kept, " ");
  }

  /**
   * What the normaliser emits: every token is normal, there are no more
   * tokens than came in, and the text is empty exactly when nothing survived.
   */
  lemma {:induction false} NormalizedShape(tokens: seq<Token>)
    ensures forall k :: 0 <= k < |NormalizedTokens(tokens)| ==> IsNormalToken(NormalizedTokens(tokens)[k])
    ensures |NormalizedTokens(tokens)| <= |tokens|
    ensures Join(NormalizedTokens(tokens), " ") == [] <==> NormalizedTokens(tokens) == []
  {
    FilterMapAll(tokens, NormalizeToken, IsNormalToken);
    JoinEmpty(NormalizedTokens(tokens), " ");
  }

  /**
   * Exactly the tokens that are neither stopwords nor punctuation and whose
   * cleaned lemma is not empty reach the output, each as its cleaned lemma,
   * in input order.
   */
  lemma NormalizedOrigins(tokens: seq<Token>)
    ensures var kept, at := NormalizedTokens(tokens), Accepted(tokens, NormalizeToken);
            && |at| == |kept|
            && (forall a, b :: 0 <= a < b < |at| ==> at[a] < at[b])
            && (forall a :: 0 <= a < |at| ==> at[a] < |tokens| && kept[a] == Strip(Lower(tokens[at[a]].baseForm)))
            && (forall j :: 0 <= j < |tokens| ==>
                  (j in at <==> !tokens[j].isStop && !tokens[j].isPunct && Strip(Lower(tokens[j].baseForm)) != []))
  {
    FilterMapOrigins(tokens, NormalizeToken);
  }

  /**
   * When no kept lemma has whitespace inside it, splitting the output on
   * whitespace gives back the kept tokens: no token is lost or merged by the
   * join.
   */
  lemma OutputSplitsBack(tokens: seq<Token>)
    requires forall k :: 0 <= k < |NormalizedTokens(tokens)| ==> IsWord(NormalizedTokens(tokens)[k])
    ensures Fields(Join(NormalizedTokens(tokens), " ")) == NormalizedTokens(tokens)
  {
    FieldsOfJoin(NormalizedTokens(tokens));
  }
}
