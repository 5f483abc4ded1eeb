/**
 * Claim extraction (`extract_claims` in backend/app.py): the sentences spaCy finds
 * in the text, kept when they name an entity of a checkable kind and contain a
 * verb, stripped, and capped.
 */
module Claims {
  import opened Common
  import opened Text

  /** Entity kinds that make a sentence worth checking. */
  const ClaimEntityLabels: set<string> := {"PERSON", "ORG", "GPE", "EVENT", "DATE", "MONEY"}

  /** The part-of-speech tag a claim sentence must contain. */
  const VerbTag: string := "VERB"

  /** The cap `check` uses (the default of `extract_claims`). */
  const DefaultCap: int := 8

  /** A sentence as spaCy's parser gives it: its text, its entities' labels and its tokens' tags. */
  datatype Sentence = Sentence(text: string, entityLabels: seq<string>, posTags: seq<string>)

  /** Line 30: some entity has a claim label and some token is a verb. */
  predicate IsClaimSentence(s: Sentence) {
    && (exists i | 0 <= i < |s.entityLabels| :: s.entityLabels[i] in ClaimEntityLabels)
    && VerbTag in s.posTags
  }

  /** The stripped texts of the claim sentences, in sentence order, before the cap. */
  function ClaimTexts(sents: seq<Sentence>): (r: seq<string>)
    ensures |r| <= |sents|
    ensures forall k | 0 <= k < |r| :: IsStripped(r[k])
  {
    if sents == [] then []
    else
      var last := sents[|sents| - 1];
      ClaimTexts(sents[..|sents| - 1]) + (if IsClaimSentence(last) then [Strip(last.text)] else [])
  }

  /**
   * What `extract_claims` returns, `claims[:cap]`: the first claims in sentence
   * order, at most `cap` of them, all of them when there are no more than `cap`.
   */
  function ExtractedClaims(sents: seq<Sentence>, cap: int): (r: seq<string>)
    ensures r <= ClaimTexts(sents)
    ensures 0 <= cap ==> |r| <= cap
    ensures 0 <= cap && |ClaimTexts(sents)| <= cap ==> r == ClaimTexts(sents)
  {
    SliceTo(ClaimTexts(sents), cap)
  }

  /** `extract_claims`: walks the sentences, appending each claim's stripped text, then caps. */
  method ExtractClaims(sents: seq<Sentence>, cap: int) returns (claims: seq<string>)
    ensures claims == ExtractedClaims(sents, cap)
  {
    claims := [];
    for i := 0 to |sents|
      invariant claims == ClaimTexts(sents[..i])
    {
      assert sents[..i + 1][..i] == sents[..i];
      var sent := sents[i];
      if IsClaimSentence(sent) {
        claims := claims + [Strip(sent.text)];
      }
    }
    assert sents[..|sents|] == sents;
    claims := SliceTo(claims, cap);
  }

  /** Claims keep sentence order: the claims of two stretches of text concatenate. */
  lemma {:induction false} ClaimTextsConcat(a: seq<Sentence>, b: seq<Sentence>)
    ensures ClaimTexts(a + b) == ClaimTexts(a) + ClaimTexts(b)
    decreases |b|
  {
    if b == [] {
      assert a + b == a;
    } else {
      var b' := b[..|b| - 1];
      ClaimTextsConcat(a, b');
      assert (a + b)[..|a + b| - 1] == a + b';
    }
  }

  /** A claim is the stripped text of a claim sentence, and every claim sentence gives one. */
  lemma {:induction false} ClaimTextsExactly(sents: seq<Sentence>)
    ensures forall t | t in ClaimTexts(sents) :: exists s | s in sents :: IsClaimSentence(s) && t == Strip(s.text)
    ensures forall s | s in sents && IsClaimSentence(s) :: Strip(s.text) in ClaimTexts(sents)
  {
    if sents != [] {
      var init := sents[..|sents| - 1];
      ClaimTextsExactly(init);
      assert sents == init + [sents[|sents| - 1]];
    }
  }
}
