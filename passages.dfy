/**
 * The paragraph filter and the top-5 ranking that `check` applies to every fetched
 * page (backend/app.py): keep the long paragraphs, score them, sort by score and keep
 * the best five.
 */
module Passages {
  import opened Common
  import opened Text

  /** A paragraph is kept when it has more than this many whitespace-separated words. */
  const MinWords: nat := 12

  /** At most this many long paragraphs of a page are kept. */
  const MaxParagraphs: nat := 10

  /** At most this many paragraphs of a page are classified. */
  const TopK: nat := 5

  predicate IsLong(p: string) {
    |Words(p)| > MinWords
  }

  /** `[p for p in paras if len(p.split()) > 12]`, in page order. */
  function LongParagraphs(paras: seq<string>): (r: seq<string>)
    ensures |r| <= |paras|
    ensures forall k | 0 <= k < |r| :: IsLong(r[k]) && r[k] in paras
  {
    if paras == [] then []
    else
      var last := paras[|paras| - 1];
      LongParagraphs(paras[..|paras| - 1]) + (if IsLong(last) then [last] else [])
  }

  /** The filter keeps exactly the long paragraphs. */
  lemma {:induction false} LongParagraphsComplete(paras: seq<string>)
    ensures forall p | p in paras && IsLong(p) :: p in LongParagraphs(paras)
  {
    if paras != [] {
      var init := paras[..|paras| - 1];
      LongParagraphsComplete(init);
      assert paras == init + [paras[|paras| - 1]];
    }
  }

  /** The filter keeps page order: the long paragraphs of two runs of lines concatenate. */
  lemma {:induction false} LongParagraphsConcat(a: seq<string>, b: seq<string>)
    ensures LongParagraphs(a + b) == LongParagraphs(a) + LongParagraphs(b)
    decreases |b|
  {
    if b == [] {
      assert a + b == a;
    } else {
      var b', x := b[..|b| - 1], b[|b| - 1];
      var tail := if IsLong(x) then [x] else [];
      LongParagraphsConcat(a, b');
      assert (a + b)[..|a + b| - 1] == a + b' && (a + b)[|a + b| - 1] == x;
      assert LongParagraphs(a + b) == LongParagraphs(a + b') + tail;
      assert LongParagraphs(b) == LongParagraphs(b') + tail;
    }
  }

  /** The paragraphs `check` keeps from a page's text: split at newlines, long ones only, at most 10. */
  function KeptParagraphs(text: string): seq<string> {
    SliceTo(LongParagraphs(Split(text, '\n')), MaxParagraphs)
  }

  /**
   * Every kept paragraph is a line of the page with more than 12 words, at most 10
   * are kept, and they are the first long lines of the page in order.
   */
  lemma KeptParagraphsShape(text: string)
    ensures var kept := KeptParagraphs(text);
      && |kept| <= MaxParagraphs
      && kept <= LongParagraphs(Split(text, '\n'))
      && forall k | 0 <= k < |kept| :: IsLong(kept[k]) && kept[k] in Split(text, '\n') && '\n' !in kept[k]
  {
    var kept := KeptParagraphs(text);
    var long := LongParagraphs(Split(text, '\n'));
    forall k | 0 <= k < |kept|
      ensures IsLong(kept[k]) && kept[k] in Split(text, '\n') && '\n' !in kept[k]
    {
      assert kept[k] == long[k];
    }
  }

  /** A paragraph with its hybrid relevance score. */
  datatype Scored = Scored(passage: string, score: real)

  /** `zip(paras, hybrid)`: pairs up to the shorter of the two lists. */
  function Zip(paras: seq<string>, scores: seq<real>): (r: seq<Scored>)
    ensures |r| == if |paras| < |scores| then |paras| else |scores|
    ensures forall k | 0 <= k < |r| :: r[k] == Scored(paras[k], scores[k])
  {
    var n := if |paras| < |scores| then |paras| else |scores|;
    seq(n, k requires 0 <= k < n => Scored(paras[k], scores[k]))
  }

  /** Scores never increase along the list. */
  predicate Descending(xs: seq<Scored>) {
    forall i, j | 0 <= i < j < |xs| :: xs[i].score >= xs[j].score
  }

  /**
   * Places `x` after every element scoring at least as much, so that among equal
   * scores the earlier element stays first.
   */
  function Insert(x: Scored, xs: seq<Scored>): (r: seq<Scored>)
    ensures |r| == |xs| + 1
    ensures multiset(r) == multiset(xs) + multiset{x}
    ensures forall k | 0 <= k < |r| :: r[k] == x || r[k] in xs
  {
    if xs == [] then [x]
    else if xs[0].score >= x.score then
      assert xs == [xs[0]] + xs[1..];
      [xs[0]] + Insert(x, xs[1..])
    else [x] + xs
  }

  lemma {:induction false} InsertDescending(x: Scored, xs: seq<Scored>)
    requires Descending(xs)
    ensures Descending(Insert(x, xs))
  {
    if xs != [] && xs[0].score >= x.score {
      var t := xs[1..];
      InsertDescending(x, t);
      var r, rest := Insert(x, xs), Insert(x, t);
      assert r == [xs[0]] + rest;
      assert rest[0] == x || rest[0] == t[0];
      forall k | 1 <= k < |r|
        ensures xs[0].score >= r[k].score
      {
        assert r[k] == rest[k - 1];
        assert rest[0].score >= rest[k - 1].score;
      }
    }
  }

  /** `sorted(xs, key=score, reverse=True)`: a stable sort into descending score order. */
  function SortDesc(xs: seq<Scored>): (r: seq<Scored>)
    ensures multiset(r) == multiset(xs)
    ensures Descending(r)
  {
    if xs == [] then []
    else
      var init := xs[..|xs| - 1];
      assert xs == init + [xs[|xs| - 1]];
      InsertDescending(xs[|xs| - 1], SortDesc(init));
      Insert(xs[|xs| - 1], SortDesc(init))
  }

  /** `sorted(zip(paras, hybrid), key=score, reverse=True)[:5]`. */
  function Ranked(paras: seq<string>, scores: seq<real>): seq<Scored> {
    SliceTo(SortDesc(Zip(paras, scores)), TopK)
  }

  /** In a descending list, nothing after position `n` scores higher than anything before it. */
  lemma DescendingSplit(sorted: seq<Scored>, n: nat)
    requires Descending(sorted) && n <= |sorted|
    ensures forall x: Scored, y: Scored | x in sorted[..n] && y in multiset(sorted[n..]) :: x.score >= y.score
  {
    forall x: Scored, y: Scored | x in sorted[..n] && y in multiset(sorted[n..])
      ensures x.score >= y.score
    {
      var i :| 0 <= i < n && sorted[..n][i] == x;
      var j :| 0 <= j < |sorted| - n && sorted[n..][j] == y;
      assert sorted[i] == x && sorted[n + j] == y;
    }
  }

  /** Taking the first `n` elements leaves exactly the multiset of the others. */
  lemma PrefixRest(xs: seq<Scored>, n: nat)
    requires n <= |xs|
    ensures multiset(xs[..n]) <= multiset(xs)
    ensures multiset(xs) - multiset(xs[..n]) == multiset(xs[n..])
  {
    assert xs == xs[..n] + xs[n..];
  }

  /** A prefix of a descending arrangement of `all` is descending and drawn from `all`. */
  lemma PrefixShape(sorted: seq<Scored>, all: seq<Scored>, n: nat)
    requires Descending(sorted) && multiset(sorted) == multiset(all) && n <= |sorted|
    ensures Descending(sorted[..n]) && multiset(sorted[..n]) <= multiset(all)
  {
    PrefixRest(sorted, n);
  }

  /** Every element drawn from the zipped list carries one of the paragraphs. */
  lemma DrawnFromZip(paras: seq<string>, scores: seq<real>, xs: seq<Scored>)
    requires multiset(xs) <= multiset(Zip(paras, scores))
    ensures forall k | 0 <= k < |xs| :: xs[k].passage in paras
  {
    var all := Zip(paras, scores);
    forall k | 0 <= k < |xs|
      ensures xs[k].passage in paras
    {
      assert xs[k] in multiset(all);
      var j :| 0 <= j < |all| && all[j] == xs[k];
    }
  }

  /**
   * The ranked list has at most five entries (fewer only when the page has fewer
   * scored paragraphs), in non-increasing score order, and each is a scored paragraph
   * of the page.
   */
  lemma RankedShape(paras: seq<string>, scores: seq<real>)
    ensures var ranked, all := Ranked(paras, scores), Zip(paras, scores);
      && |ranked| == (if |all| < TopK then |all| else TopK)
      && Descending(ranked)
      && multiset(ranked) <= multiset(all)
      && forall k | 0 <= k < |ranked| :: ranked[k].passage in paras
  {
    var all := Zip(paras, scores);
    var sorted := SortDesc(all);
    PrefixShape(sorted, all, |Ranked(paras, scores)|);
    DrawnFromZip(paras, scores, Ranked(paras, scores));
  }

  /** No scored paragraph left out of the ranked list scores higher than one kept. */
  lemma RankedIsTop(paras: seq<string>, scores: seq<real>)
    ensures var ranked, all := Ranked(paras, scores), Zip(paras, scores);
      forall x: Scored, y: Scored | x in ranked && y in multiset(all) - multiset(ranked) :: x.score >= y.score
  {
    var sorted := SortDesc(Zip(paras, scores));
    var n := |Ranked(paras, scores)|;
    PrefixRest(sorted, n);
    DescendingSplit(sorted, n);
  }
}
