# llm-checker: a Dafny model of the claim checker and its training-data tools

llm-checker checks the factual claims in a piece of model output against the web.
Its `/check` endpoint (backend/app.py) does five things:

1. It extracts candidate claims with spaCy.
2. It searches for each claim twice.
3. It fetches every result page once per claim.
4. It keeps each page's long paragraphs and ranks the best five by a hybrid lexical/semantic score.
5. It classifies each of those paragraphs with an NLI model, then fuses the votes into one verdict per claim (supported, contradicted or unclear), with a confidence and a citation.

Two dataset tools sit beside it:

- scripts/prepare_hover.py turns HoVer-style JSONL items into (claim, passage, label) reranker pairs.
- backend/datasets/hover_loader.py reads those pairs back and turns them into cross-encoder inputs.

This project models those three files in Dafny and proves what they promise.

| file | module | models |
|---|---|---|
| common.dfy | `Common` | `Option`, `Result`, and Python's `s[:n]` |
| text.dfy | `Text` | `str.isspace`, `str.strip()`, `str.split()`, `str.split("\n")` |
| json.dfy | `Json` | values as `json.loads` returns them, `dict.get`, and one decoded JSONL line |
| prepare_hover.dfy | `PrepareHover` | `extract_texts`, `iter_jsonl`, `convert` |
| hover_loader.dfy | `HoverLoader` | `load_reranker_pairs`, `to_crossencoder_inputs`, and the writer/reader round trip |
| claims.dfy | `Claims` | `extract_claims` |
| passages.dfy | `Passages` | the paragraph filter and the top-5 ranking of `check` |
| verdict.dfy | `Verdict` | the verdict rule and the result entry of `check` |
| pipeline.dfy | `Pipeline` | the loops of `check`: claims, queries, results, pages, paragraphs |

## How the model is built

Each loop of the source is a method with a `for` or `while` loop. Each method is proved against a
specification function: `ensures r == Spec(inputs)`. The properties the source promises are then
proved about those functions as lemmas.

Everything outside the program is a parameter. In `Pipeline`, the `Services` value stands for:

- spaCy's sentence parse;
- the searx request: `None` when it raises;
- trafilatura's page text: `""` when nothing could be fetched;
- the hybrid BM25/embedding scorer;
- the NLI classifier.

A JSONL file is the sequence of its lines as `line.strip()` and `json.loads` leave them: `Blank`,
`Value(v)`, or `Malformed` when `json.loads` raises.

Failures, queries and the verdict rule are modelled as backend/app.py has them:

- `searx` calls `raise_for_status()` and nothing in `check` catches it, so one failed search fails
  the whole request. The model returns `None` for the request.
- The verdict is a plain threshold rule: a contradicting vote reaching 0.8 wins first, then a
  supporting one; there is no weighting of votes by source.
- There are exactly two queries per claim.

The key names `convert` looks up (`claim_key`, `pos_key`, `neg_key`; by default "claim",
"positive_passages" and "negative_passages") are parameters of the model.

## Model

| member | source | states |
|---|---|---|
| Common.SliceTo | backend/app.py:32 | `s[:n]` is a prefix of `s`; its length is `min(n, |s|)` for `n >= 0` and `max(|s| + n, 0)` for negative `n` |
| Text.Strip | scripts/prepare_hover.py:25-26 | the result of `str.strip()` is no longer than the input and starts and ends with non-whitespace |
| Text.StripIsSlice | scripts/prepare_hover.py:9 | `strip()` returns a contiguous slice of the line, and only whitespace lies on either side of it |
| Text.BlankIsAllSpace | scripts/prepare_hover.py:9-11 | a line is skipped as blank exactly when every character is whitespace |
| Text.Words | backend/app.py:76 | every word `str.split()` yields is non-empty and holds no whitespace |
| Text.WordLengthBefore | backend/app.py:76 | a word ends at the first whitespace character, whatever follows it |
| Text.WordsAtSpace | backend/app.py:76 | a whitespace character splits the text: the words of `a + [c] + b` are the words of `a` followed by those of `b` |
| Text.OneWord | backend/app.py:76 | a non-empty run without whitespace is exactly one word |
| Text.NoWords | backend/app.py:76 | whitespace alone has no words; with the two lemmas above this fixes the words, and so the word count the filter compares with 12, for every text |
| Text.Split | backend/app.py:76 | `str.split("\n")` gives at least one piece, and no piece holds the separator |
| Text.JoinSplit | backend/app.py:76 | splitting at newlines loses nothing: joining the pieces gives the page text back |
| Json.Get | scripts/prepare_hover.py:63 | `dict.get` gives the stored value for a present key and None for a missing one |
| Json.ReadLine | scripts/prepare_hover.py:9-12 | a line is blank exactly when its strip is empty; otherwise it is the value `json.loads` decodes from the stripped line, or malformed when that raises |
| PrepareHover.NonBlankIsStripped | scripts/prepare_hover.py:24-26 | a text taken from a str is non-empty and stripped |
| PrepareHover.FirstUsable | scripts/prepare_hover.py:43-45 | the key chosen in a dict is the first one holding a non-blank str: no earlier key holds one |
| PrepareHover.FindText | scripts/prepare_hover.py:36-39 | the key loop over a dict stops at the first key holding a non-blank str and yields its strip, or nothing |
| PrepareHover.ListTexts | scripts/prepare_hover.py:27-40 | the list loop yields the texts of the elements in order: a non-blank str gives its strip, a dict gives its first text, anything else nothing |
| PrepareHover.ExtractTexts | scripts/prepare_hover.py:15-46 | `extract_texts` returns exactly the specified texts for None, str, list, dict and any other value |
| PrepareHover.TextsShape | scripts/prepare_hover.py:22-46 | every extracted text is non-empty and stripped; a list gives at most one text per element; any other value gives at most one; a value that is not a str, list or dict gives none |
| PrepareHover.ItemTextsShape | scripts/prepare_hover.py:29-39 | a list yields at most one text per element, each non-empty and stripped |
| PrepareHover.ItemTextsConcat | scripts/prepare_hover.py:29-39 | the texts of a list keep element order: the texts of two concatenated lists are the two lists' texts concatenated |
| PrepareHover.IterJsonl | scripts/prepare_hover.py:6-12 | `iter_jsonl` yields the decoded values in file order, skipping blank lines, or raises on a malformed line |
| PrepareHover.ValuesSkipBlank | scripts/prepare_hover.py:10-11 | inserting a blank line anywhere changes nothing the iterator yields |
| PrepareHover.ValuesCount | scripts/prepare_hover.py:8-12 | without malformed lines, every non-blank line yields exactly one value |
| PrepareHover.FindClaim | scripts/prepare_hover.py:63-72 | the claim is the strip of `claim_key`'s value if it is a non-blank str, else of the first of query, question and claim_text that is one, else nothing |
| PrepareHover.FirstTextSkip | scripts/prepare_hover.py:64-66 | a key without text passes the search on to the remaining keys |
| PrepareHover.FindPositives | scripts/prepare_hover.py:74-79 | positive passages come from `pos_key`, else "positives", else "evidence" |
| PrepareHover.FindNegatives | scripts/prepare_hover.py:75-81 | negative passages come from `neg_key`, else "negatives", else "distractors" |
| PrepareHover.WritePairs | scripts/prepare_hover.py:83-86 | one record per passage, in passage order, pairing the claim with the passage under the label; the counter grows by the number of passages |
| PrepareHover.ItemCounts | scripts/prepare_hover.py:83-90 | an item's records add the number of its positives to the label-1 count and of its negatives to the label-0 count |
| PrepareHover.ConvertItem | scripts/prepare_hover.py:63-90 | one item appends exactly its records to the output and keeps both counters equal to the number of records with label 1 and label 0 |
| PrepareHover.Convert | scripts/prepare_hover.py:49-92 | `convert` writes the records of every item in file order and returns the item count and both label counts, or raises on the first malformed line or non-dict item |
| PrepareHover.PairsLayout | scripts/prepare_hover.py:83-90 | the positive records come first, then the negative ones, each pairing the claim with its passage in order |
| PrepareHover.NoClaimNoRecords | scripts/prepare_hover.py:70-71 | an item without a usable claim writes nothing |
| PrepareHover.ItemRecordsLayout | scripts/prepare_hover.py:72-90 | an item with claim `c` writes |pos| records labelled 1 and then |neg| records labelled 0, all with text1 = `c` |
| PrepareHover.ItemRecordsWellFormed | scripts/prepare_hover.py:70-90 | every record of an item has a non-empty stripped claim, a non-empty stripped passage and label 0 or 1 |
| PrepareHover.RecordsWellFormed | scripts/prepare_hover.py:61-90 | every record written for a run of items is well formed |
| PrepareHover.CountLabelTotal | scripts/prepare_hover.py:86-92 | with labels 0 and 1 only, the two counters add up to the number of records |
| PrepareHover.FirstErrorCause | scripts/prepare_hover.py:12 | `convert` raises exactly when some line is malformed or decodes to a non-dict |
| PrepareHover.ConvertTotals | scripts/prepare_hover.py:56-92 | after a successful `convert`, total_items is the number of non-blank lines, pos_pairs + neg_pairs is the number of records, and every record is well formed |
| HoverLoader.LabelOf | backend/datasets/hover_loader.py:24-27 | `lab in (0, 1)` accepts exactly 0, 0.0 and False as label 0 and 1, 1.0 and True as label 1 |
| HoverLoader.Accepted | backend/datasets/hover_loader.py:20-27 | a decoded line is kept exactly when it is a dict whose text1 and text2 are str and whose label is accepted; the kept record carries those values |
| HoverLoader.LoadRerankerPairs | backend/datasets/hover_loader.py:5-30 | the loader's loop returns exactly the specified result: valid records in order, the early stop at `limit`, the error on an undecodable line |
| HoverLoader.LoadProperties | backend/datasets/hover_loader.py:15-29 | from a state below the limit: the result is the records so far plus a prefix of the valid records left, all of them when no limit stops it, never more than the cap; failure only on an undecodable line |
| HoverLoader.LoadSucceeds | backend/datasets/hover_loader.py:19 | a file without undecodable lines loads |
| HoverLoader.ValidPairsLabels | backend/datasets/hover_loader.py:24-27 | every loaded record has label 0 or 1 |
| HoverLoader.LoadSpecProperties | backend/datasets/hover_loader.py:13-30 | the result is a prefix of the valid records in file order, all of them without a limit, at most `max(limit, 1)` of them with one, each labelled 0 or 1; without undecodable lines loading succeeds |
| HoverLoader.LoadAtMostOne | backend/datasets/hover_loader.py:27-29 | with `limit <= 0` the check after the append still lets the first valid record through, and only that one |
| HoverLoader.ToCrossEncoderInputs | backend/datasets/hover_loader.py:33-45 | one (text1, text2) tuple and one float label per pair, in order; labels 0 and 1 become 0.0 and 1.0 |
| HoverLoader.AsDict | scripts/prepare_hover.py:84 | the dict written for a record has exactly the keys text1, text2 and label |
| HoverLoader.AcceptedAsDict | backend/datasets/hover_loader.py:20-27 | the loader accepts a written record with label 0 or 1 as that same record |
| HoverLoader.ReadBack | backend/datasets/hover_loader.py:15-27 | every written record with label 0 or 1 is read back unchanged and in order |
| HoverLoader.ConvertThenLoad | backend/datasets/hover_loader.py:5-30 | round trip: loading with no limit what a successful `convert` wrote returns exactly its records |
| Claims.ClaimTexts | backend/app.py:29-31 | there are no more claims than sentences, and each claim is stripped |
| Claims.ExtractedClaims | backend/app.py:32 | the returned claims are the first claims in sentence order: at most `cap`, and all of them when there are no more than `cap` |
| Claims.ExtractClaims | backend/app.py:26-32 | the sentence loop and the cap return exactly the specified claims |
| Claims.ClaimTextsConcat | backend/app.py:29-31 | claims keep sentence order: the claims of two runs of sentences concatenate |
| Claims.ClaimTextsExactly | backend/app.py:30-31 | every claim is the stripped text of a sentence with a checkable entity and a verb, and every such sentence gives a claim |
| Passages.LongParagraphs | backend/app.py:76 | the filter keeps only paragraphs of the page with more than 12 words |
| Passages.LongParagraphsConcat | backend/app.py:76 | the filter keeps page order: the long paragraphs of two runs of lines are those of the first run followed by those of the second |
| Passages.LongParagraphsComplete | backend/app.py:76 | every paragraph with more than 12 words passes the filter |
| Passages.KeptParagraphsShape | backend/app.py:76 | at most 10 paragraphs are kept; they are the first long lines of the page, in order, and contain no newline |
| Passages.Zip | backend/app.py:87 | `zip` pairs each paragraph with its score, up to the shorter list |
| Passages.Insert | backend/app.py:87 | one insertion step of the sort adds exactly the new element |
| Passages.InsertDescending | backend/app.py:87 | one insertion step keeps the list in descending score order |
| Passages.SortDesc | backend/app.py:87 | the sort is a permutation and its result is in descending score order |
| Passages.RankedShape | backend/app.py:87 | at most five paragraphs are ranked, fewer only when fewer were scored; they are in descending order, drawn from the scored paragraphs and paragraphs of the page |
| Passages.RankedIsTop | backend/app.py:87 | no scored paragraph left out of the top five scores higher than one kept |
| Verdict.BestIndex | backend/app.py:93-94 | `max` picks a highest-confidence vote, and the first among equals |
| Verdict.Best | backend/app.py:101 | `max(..., default=None)` is None exactly for no votes; otherwise it is a vote with the highest confidence |
| Verdict.WithStance | backend/app.py:93-94 | the filter keeps exactly the votes with the label |
| Verdict.BestWithStance | backend/app.py:93-94 | the best vote of a label is None exactly when no vote has it; otherwise it is a vote with that label and the highest confidence among them |
| Verdict.ContradictionFirst | backend/app.py:96-97 | the claim is contradicted exactly when a contradicting vote reaches 0.8, whatever the supporting votes say, and then rests on the best contradicting vote |
| Verdict.SupportedExactly | backend/app.py:98-99 | the claim is supported exactly when no contradicting vote but some supporting vote reaches 0.8, and then rests on the best supporting vote |
| Verdict.UnclearOtherwise | backend/app.py:100-101 | otherwise the claim is unclear and rests on the best vote of any label; with no votes it is unclear with nothing to rest on |
| Verdict.CitationBacked | backend/app.py:103-108 | the result carries the claim and the verdict; a citation appears exactly when there are votes, and it cites the vote the verdict rests on: that vote's URL, the first 350 characters of its paragraph, and its confidence; with no votes the result is unclear, 0.0, no citation |
| Pipeline.Queries | backend/app.py:61 | two queries: the claim in double quotes, and the claim cut to 128 characters |
| Pipeline.UrlsOf | backend/app.py:66-67 | one URL per search result, in result order |
| Pipeline.Seen | backend/app.py:63-70 | `seen_urls` holds exactly the non-empty URLs met so far |
| Pipeline.Classified | backend/app.py:89-91 | one candidate per ranked paragraph, carrying the page URL, the paragraph and its NLI label and probability |
| Pipeline.ClassifyRanked | backend/app.py:89-91 | the classification loop yields exactly those candidates, in ranked order |
| Pipeline.PageCandidates | backend/app.py:72-91 | one page yields exactly its specified candidates: none without text or long paragraphs |
| Pipeline.VisitHit | backend/app.py:67-91 | an empty or already seen URL is skipped; any other is marked seen and its page's candidates are appended |
| Pipeline.VisitHits | backend/app.py:66-91 | one query's results update `seen_urls` and the candidates exactly as the specification of the whole URL sequence says |
| Pipeline.CheckClaim | backend/app.py:60-108 | one claim's result is exactly the specified one, or the request fails when one of its two searches fails |
| Pipeline.Check | backend/app.py:53-114 | `check` returns exactly the specified list of claim results for the extracted claims, or fails |
| Pipeline.SearchFails | backend/app.py:34-39 | once a search fails, the claim's searches fail whatever the later queries give |
| Pipeline.FetchedOnce | backend/app.py:62-70 | within one claim every non-empty URL is fetched exactly once, and no empty URL is fetched |
| Pipeline.PageVotesShape | backend/app.py:72-91 | a page gives no candidate without text or long paragraphs; otherwise one per ranked paragraph (at most five), with the page URL, a kept paragraph and its NLI judgement |
| Pipeline.VotesFromPages | backend/app.py:89-91 | every candidate of a claim comes from a fetched page and carries that page's URL |
| Pipeline.ClaimCheckText | backend/app.py:104 | a claim's result carries the claim's own text |
| Pipeline.ResultsPerClaim | backend/app.py:60-108 | one result per claim, in claim order, each what checking that claim alone gives (`seen_urls` starts empty per claim); the request fails exactly when a search fails for some claim |

## Left out

- File I/O: opening, reading and writing files, and `argparse`/`main` of scripts/prepare_hover.py. Files are sequences of lines; the output file is the sequence of records written.
- `json.loads` and `json.dumps`: a line arrives decoded, and the round trip assumes `json.dumps` followed by `json.loads` gives the dict back.
- Records written before `convert` raises: a failing `convert` is modelled by its error alone.
- Floats are reals: NaN, infinities and rounding are not modelled, and 0.8 is exact.
- External models and services: spaCy, searx, trafilatura, the BM25 and embedding scores and the NLI model are given functions. The hybrid score formula (`0.6 * bm / maxbm + 0.4 * cos`) is part of the given scorer.
- The request envelope of `/check`: FastAPI, `payload.get("llm_output", "")`, the `checked_on` timestamp and `latency_s`. The model returns the `claims` list.
- Search results whose `url` is not a string: a missing, `None` or empty `url` is the empty string.
- Passages.SortDesc: stability is built into the definition, an insertion after every element of equal or higher score, but stated only as descending order plus permutation.
- The rest of the repository (the reranker training script, the web front end, deployment files) is not part of this model.
