/**
 * The verdict rule of `check` (backend/app.py): from the candidate votes gathered
 * for one claim, pick the best contradicting and the best supporting vote, decide,
 * and assemble the claim's result with its citation.
 */
module Verdict {
  import opened Common

  /** The three labels of the NLI model's `label_map`. */
  datatype Stance = Contradicted | Unclear | Supported

  /** One candidate: a ranked paragraph of a page, with the NLI label and its probability. */
  datatype Vote = Vote(url: string, passage: string, stance: Stance, conf: real)

  /** A vote decides the claim only when its confidence reaches this value. */
  const Threshold: real := 0.8

  /** A citation is cut to this many characters of the voting paragraph. */
  const SnippetLength: nat := 350

  /**
   * The position of `max(vs, key=conf)`: the highest confidence, and among equal
   * confidences the first, as Python's `max` keeps the first maximal element.
   */
  function BestIndex(vs: seq<Vote>): (i: nat)
    requires vs != []
    ensures i < |vs|
    ensures forall k | 0 <= k < |vs| :: vs[k].conf <= vs[i].conf
    ensures forall k | 0 <= k < i :: vs[k].conf < vs[i].conf
  {
    var n := |vs| - 1;
    if n == 0 then 0
    else
      var b := BestIndex(vs[..n]);
      if vs[n].conf > vs[b].conf then n else b
  }

  /** `max(vs, key=lambda y: y["conf"], default=None)`. */
  function Best(vs: seq<Vote>): (r: Option<Vote>)
    ensures r.None? <==> vs == []
    ensures r.Some? ==> r.value in vs && forall k | 0 <= k < |vs| :: vs[k].conf <= r.value.conf
  {
    if vs == [] then None else Some(vs[BestIndex(vs)])
  }

  /** `[x for x in vs if x["label"] == stance]`, in order. */
  function WithStance(vs: seq<Vote>, stance: Stance): (r: seq<Vote>)
    ensures forall v | v in r :: v in vs && v.stance == stance
    ensures forall v | v in vs && v.stance == stance :: v in r
  {
    if vs == [] then []
    else
      var last := vs[|vs| - 1];
      WithStance(vs[..|vs| - 1], stance) + (if last.stance == stance then [last] else [])
  }

  /** The best vote of a stance is the highest-confidence vote among those with that stance. */
  lemma BestWithStance(vs: seq<Vote>, stance: Stance)
    ensures var b := Best(WithStance(vs, stance));
      && (b.None? <==> forall v | v in vs :: v.stance != stance)
      && (b.Some? ==> b.value in vs && b.value.stance == stance
                      && forall v | v in vs && v.stance == stance :: v.conf <= b.value.conf)
  {
    var w := WithStance(vs, stance);
    if Best(w).Some? {
      forall v | v in vs && v.stance == stance
        ensures v.conf <= Best(w).value.conf
      {
        var k :| 0 <= k < |w| && w[k] == v;
      }
    } else {
      assert w == [];
    }
  }

  /** The outcome of the rule: the verdict and the vote it rests on, if any. */
  datatype Decision = Decision(verdict: Stance, best: Option<Vote>)

  /**
   * Lines 93-101: a contradicting vote reaching the threshold wins first, then a
   * supporting one; otherwise the claim is unclear and the best vote of any label
   * is kept.
   */
  function Decide(vs: seq<Vote>): Decision {
    var contra := Best(WithStance(vs, Contradicted));
    var support := Best(WithStance(vs, Supported));
    if contra.Some? && contra.value.conf >= Threshold then Decision(Contradicted, contra)
    else if support.Some? && support.value.conf >= Threshold then Decision(Supported, support)
    else Decision(Unclear, Best(vs))
  }

  predicate Reaches(vs: seq<Vote>, stance: Stance) {
    exists v | v in vs :: v.stance == stance && v.conf >= Threshold
  }

  /**
   * A contradicting vote at or above the threshold makes the claim contradicted,
   * resting on the highest-confidence contradicting vote, whatever the supporting
   * votes say.
   */
  lemma ContradictionFirst(vs: seq<Vote>)
    ensures Decide(vs).verdict == Contradicted <==> Reaches(vs, Contradicted)
    ensures Reaches(vs, Contradicted) ==>
      && Decide(vs).best.Some?
      && Decide(vs).best.value in vs
      && Decide(vs).best.value.stance == Contradicted
      && forall v | v in vs && v.stance == Contradicted :: v.conf <= Decide(vs).best.value.conf
  {
    BestWithStance(vs, Contradicted);
    BestWithStance(vs, Supported);
  }

  /** The claim is supported exactly when no contradicting vote and some supporting vote reach the threshold. */
  lemma SupportedExactly(vs: seq<Vote>)
    ensures Decide(vs).verdict == Supported <==> !Reaches(vs, Contradicted) && Reaches(vs, Supported)
    ensures Decide(vs).verdict == Supported ==>
      && Decide(vs).best.Some?
      && Decide(vs).best.value in vs
      && Decide(vs).best.value.stance == Supported
      && forall v | v in vs && v.stance == Supported :: v.conf <= Decide(vs).best.value.conf
  {
    BestWithStance(vs, Contradicted);
    BestWithStance(vs, Supported);
  }

  /**
   * Otherwise the claim is unclear, resting on the highest-confidence vote of any
   * label; with no votes at all there is nothing to rest on.
   */
  lemma UnclearOtherwise(vs: seq<Vote>)
    ensures Decide(vs).verdict == Unclear <==> !Reaches(vs, Contradicted) && !Reaches(vs, Supported)
    ensures Decide(vs).verdict == Unclear ==> Decide(vs).best == Best(vs)
    ensures vs == [] ==> Decide(vs) == Decision(Unclear, None)
  {
    BestWithStance(vs, Contradicted);
    BestWithStance(vs, Supported);
  }

  /** The citation of a result: the page and the start of the paragraph the verdict rests on. */
  datatype Citation = Citation(url: string, snippet: string)

  /** One entry of the `claims` list `check` returns. */
  datatype ClaimResult = ClaimResult(text: string, verdict: Stance, confidence: real, citation: Option<Citation>)

  /** Lines 103-108: the claim, its verdict, the chosen vote's confidence (0.0 without one) and its citation. */
  function Assemble(claim: string, vs: seq<Vote>): ClaimResult {
    var d := Decide(vs);
    match d.best
    case None => ClaimResult(claim, d.verdict, 0.0, None)
    case Some(b) => ClaimResult(claim, d.verdict, b.conf, Some(Citation(b.url, SliceTo(b.passage, SnippetLength))))
  }

  /**
   * A citation appears exactly when a vote was chosen, and it is the vote the
   * verdict rests on: that vote's URL, the first 350 characters of its paragraph,
   * and its confidence. Without any vote the result is unclear with confidence 0.0
   * and no citation.
   */
  lemma CitationBacked(claim: string, vs: seq<Vote>)
    ensures var r, d := Assemble(claim, vs), Decide(vs);
      && r.text == claim
      && r.verdict == d.verdict
      && (r.citation.Some? <==> vs != [])
      && (r.citation.Some? <==> d.best.Some?)
      && (r.citation.Some? ==>
            && d.best.value in vs
            && r.citation.value.url == d.best.value.url
            && r.citation.value.snippet == SliceTo(d.best.value.passage, SnippetLength)
            && r.citation.value.snippet <= d.best.value.passage
            && |r.citation.value.snippet| == (if |d.best.value.passage| < SnippetLength then |d.best.value.passage| else SnippetLength)
            && r.confidence == d.best.value.conf)
      && (vs == [] ==> r == ClaimResult(claim, Unclear, 0.0, None))
  {
    BestWithStance(vs, Contradicted);
    BestWithStance(vs, Supported);
    var d := Decide(vs);
    if d.best.Some? {
      assert d.best.value in vs;
    }
  }
}
