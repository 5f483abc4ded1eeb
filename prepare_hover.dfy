/**
 * Turning HoVer-style JSONL items into (claim, passage, label) training pairs
 * for the passage reranker (scripts/prepare_hover.py).
 */
module PrepareHover {
  import opened Common
  import opened Text
  import opened Json

  /** Keys tried, in this order, for a passage packed inside a dict. */
  const TextKeys: seq<string> := ["text", "passage", "evidence", "snippet"]

  /** Keys tried, in this order, when the configured claim key gives no claim. */
  const ClaimFallbackKeys: seq<string> := ["query", "question", "claim_text"]

  /** One training pair: a claim, a passage, and 1 (supporting) or 0 (not). */
  datatype Pair = Pair(text1: string, text2: string, labelValue: int)

  /** What `convert` reports: the records it wrote and its three counters. */
  datatype Converted = Converted(records: seq<Pair>, totalItems: nat, posPairs: nat, negPairs: nat)

  /** Why `convert` raises: a line `json.loads` rejects, or an item that is not a dict. */
  datatype PrepError = MalformedLine | NotAnObject

  // ---------------------------------------------------------------------------
  // extract_texts

  /** A str value that is not blank, stripped; anything else gives nothing. */
  function NonBlank(v: Json): (r: Option<string>)
    ensures r.Some? <==> v.Str? && !IsBlank(v.s)
    ensures r.Some? ==> r.value == Strip(v.s)
  {
    if v.Str? && !IsBlank(v.s) then Some(Strip(v.s)) else None
  }

  /**
   * The position in `keys` of the first key whose value is a non-blank str
   * (`|keys|` when there is none): every earlier key holds no text.
   */
  function FirstUsable(fields: map<string, Json>, keys: seq<string>): (i: nat)
    ensures i <= |keys|
    ensures forall j | 0 <= j < i :: NonBlank(Get(fields, keys[j])).None?
    ensures i < |keys| ==> NonBlank(Get(fields, keys[i])).Some?
  {
    if keys == [] then 0
    else if NonBlank(Get(fields, keys[0])).Some? then 0
    else 1 + FirstUsable(fields, keys[1..])
  }

  lemma FirstUsableAt(fields: map<string, Json>, keys: seq<string>, j: nat)
    requires j < |keys| && NonBlank(Get(fields, keys[j])).Some?
    requires forall m | 0 <= m < j :: NonBlank(Get(fields, keys[m])).None?
    ensures FirstUsable(fields, keys) == j
  {
  }

  lemma FirstUsableNone(fields: map<string, Json>, keys: seq<string>)
    requires forall m | 0 <= m < |keys| :: NonBlank(Get(fields, keys[m])).None?
    ensures FirstUsable(fields, keys) == |keys|
  {
  }

  /** The stripped text under the first key of `keys` that holds one: a dict gives at most one text. */
  function FirstText(fields: map<string, Json>, keys: seq<string>): Option<string> {
    var i := FirstUsable(fields, keys);
    if i < |keys| then NonBlank(Get(fields, keys[i])) else None
  }

  function AsList(t: Option<string>): seq<string> {
    if t.Some? then [t.value] else []
  }

  /** What one element of a list contributes: a non-blank str, or the text of a dict. */
  function ItemText(v: Json): Option<string> {
    match v
    case Str(_) => NonBlank(v)
    case Obj(fields) => FirstText(fields, TextKeys)
    case _ => None
  }

  /** The texts a list yields, element by element. */
  function ItemTexts(items: seq<Json>): seq<string> {
    if items == [] then []
    else ItemTexts(items[..|items| - 1]) + AsList(ItemText(items[|items| - 1]))
  }

  /** The list of passage texts `extract_texts` returns for a loosely typed field. */
  function Texts(v: Json): seq<string> {
    match v
    case Null => []
    case Str(_) => AsList(NonBlank(v))
    case Arr(items) => ItemTexts(items)
    case Obj(fields) => AsList(FirstText(fields, TextKeys))
    case _ => []
  }

  /** The texts are non-empty and stripped, since each one is the strip of a non-blank str. */
  lemma NonBlankIsStripped(v: Json)
    ensures NonBlank(v).Some? ==> NonBlank(v).value != [] && IsStripped(NonBlank(v).value)
  {
  }

  lemma FirstTextIsStripped(fields: map<string, Json>, keys: seq<string>)
    ensures FirstText(fields, keys).Some? ==>
      FirstText(fields, keys).value != [] && IsStripped(FirstText(fields, keys).value)
  {
    var i := FirstUsable(fields, keys);
    if i < |keys| {
      NonBlankIsStripped(Get(fields, keys[i]));
    }
  }

  /**
   * Shape of `extract_texts`: every text is non-empty and already stripped;
   * a list yields at most one text per element; anything else at most one text;
   * a value that is not a str, list or dict yields nothing.
   */
  lemma {:induction false} TextsShape(v: Json)
    ensures forall k | 0 <= k < |Texts(v)| :: Texts(v)[k] != [] && IsStripped(Texts(v)[k])
    ensures v.Arr? ==> |Texts(v)| <= |v.items|
    ensures !v.Arr? ==> |Texts(v)| <= 1
    ensures !(v.Str? || v.Arr? || v.Obj?) ==> Texts(v) == []
  {
    match v
    case Arr(items) => ItemTextsShape(items);
    case Obj(fields) => FirstTextIsStripped(fields, TextKeys);
    case _ =>
  }

  lemma {:induction false} ItemTextsShape(items: seq<Json>)
    ensures |ItemTexts(items)| <= |items|
    ensures forall k | 0 <= k < |ItemTexts(items)| :: ItemTexts(items)[k] != [] && IsStripped(ItemTexts(items)[k])
  {
    if items != [] {
      var last := items[|items| - 1];
      ItemTextsShape(items[..|items| - 1]);
      match last
      case Obj(fields) => FirstTextIsStripped(fields, TextKeys);
      case _ =>
    }
  }

  /** A list's texts keep the order of its elements: the texts of a concatenation concatenate. */
  lemma {:induction false} ItemTextsConcat(a: seq<Json>, b: seq<Json>)
    ensures ItemTexts(a + b) == ItemTexts(a) + ItemTexts(b)
    decreases |b|
  {
    if b == [] {
      assert a + b == a;
    } else {
      var b' := b[..|b| - 1];
      ItemTextsConcat(a, b');
      assert (a + b)[..|a + b| - 1] == a + b';
    }
  }

  /**
   * The loop `for k in keys: if k in v and isinstance(v[k], str) and v[k].strip(): ...`
   * that `extract_texts` runs on a dict: it stops at the first key holding a non-blank str.
   */
  method FindText(fields: map<string, Json>, keys: seq<string>) returns (t: Option<string>)
    ensures t == FirstText(fields, keys)
  {
    var j := 0;
    while j < |keys|
      invariant 0 <= j <= |keys|
      invariant forall m | 0 <= m < j :: NonBlank(Get(fields, keys[m])).None?
    {
      var key := keys[j];
      if key in fields && fields[key].Str? && Strip(fields[key].s) != [] {
        FirstUsableAt(fields, keys, j);
        return Some(Strip(fields[key].s));
      }
      j := j + 1;
    }
    FirstUsableNone(fields, keys);
    return None;
  }

  /** The list branch of `extract_texts`: walks the elements in order, appending each text. */
  method ListTexts(items: seq<Json>) returns (out: seq<string>)
    ensures out == ItemTexts(items)
  {
    out := [];
    for k := 0 to |items|
      invariant out == ItemTexts(items[..k])
    {
      var x := items[k];
      assert items[..k + 1][..k] == items[..k];
      if x.Str? {
        var t := Strip(x.s);
        if t != [] {
          out := out + [t];
        }
      } else if x.Obj? {
        var t := FindText(x.fields, TextKeys);
        if t.Some? {
          out := out + [t.value];
        }
      }
    }
    assert items[..|items|] == items;
  }

  /**
   * `extract_texts`: None gives nothing; a str gives its strip unless blank; a list
   * gives the texts of its elements; a dict gives its first text, if any.
   */
  method ExtractTexts(v: Json) returns (out: seq<string>)
    ensures out == Texts(v)
  {
    match v
    case Null =>
      return [];
    case Str(raw) =>
      var s := Strip(raw);
      return if s != [] then [s] else [];
    case Arr(items) =>
      out := ListTexts(items);
    case Obj(fields) =>
      var t := FindText(fields, TextKeys);
      if t.Some? {
        return [t.value];
      }
      return [];
    case _ =>
      return [];
  }

  // ---------------------------------------------------------------------------
  // iter_jsonl

  /** The decoded values of a JSONL file, in order; blank lines contribute nothing. */
  function Values(lines: seq<Line>): seq<Json> {
    if lines == [] then []
    else
      var last := lines[|lines| - 1];
      Values(lines[..|lines| - 1]) + (if last.Value? then [last.v] else [])
  }

  predicate HasMalformed(lines: seq<Line>) {
    exists i | 0 <= i < |lines| :: lines[i].Malformed?
  }

  /** What iterating `iter_jsonl` to the end yields, or the error it raises. */
  function Jsonl(lines: seq<Line>): Result<seq<Json>, PrepError> {
    if HasMalformed(lines) then Failure(MalformedLine) else Success(Values(lines))
  }

  /** A blank line anywhere in the file changes nothing that `iter_jsonl` yields. */
  lemma {:induction false} ValuesSkipBlank(a: seq<Line>, b: seq<Line>)
    ensures Values(a + [Blank] + b) == Values(a + b)
    decreases |b|
  {
    if b == [] {
      assert (a + [Blank])[..|a|] == a;
      assert a + [Blank] + b == a + [Blank];
      assert a + b == a;
    } else {
      var b' := b[..|b| - 1];
      ValuesSkipBlank(a, b');
      assert (a + [Blank] + b)[..|a| + 1 + |b'|] == a + [Blank] + b';
      assert (a + b)[..|a| + |b'|] == a + b';
    }
  }

  /** Every non-blank line yields exactly one value, in file order. */
  lemma {:induction false} ValuesCount(lines: seq<Line>)
    requires !HasMalformed(lines)
    ensures |Values(lines)| == |lines| - CountBlank(lines)
  {
    if lines != [] {
      ValuesCount(lines[..|lines| - 1]);
    }
  }

  function CountBlank(lines: seq<Line>): nat {
    if lines == [] then 0
    else CountBlank(lines[..|lines| - 1]) + (if lines[|lines| - 1].Blank? then 1 else 0)
  }

  /** `iter_jsonl`: reads line by line, skipping blank lines; a malformed line raises. */
  method IterJsonl(lines: seq<Line>) returns (r: Result<seq<Json>, PrepError>)
    ensures r == Jsonl(lines)
  {
    var out: seq<Json> := [];
    for i := 0 to |lines|
      invariant out == Values(lines[..i])
      invariant !HasMalformed(lines[..i])
    {
      assert lines[..i + 1][..i] == lines[..i];
      match lines[i]
      case Blank =>
      case Malformed =>
        assert lines[i] == lines[..i + 1][i];
        return Failure(MalformedLine);
      case Value(v) =>
        out := out + [v];
    }
    assert lines[..|lines|] == lines;
    return Success(out);
  }

  // ---------------------------------------------------------------------------
  // convert

  /** The stripped claim of an item: `claim_key` first, then query, question, claim_text. */
  function ClaimOf(fields: map<string, Json>, claimKey: string): Option<string> {
    FirstText(fields, [claimKey] + ClaimFallbackKeys)
  }

  /** The texts under `key`, or if none the texts under `alt1`, or else those under `alt2`. */
  function TextsWithFallback(fields: map<string, Json>, key: string, alt1: string, alt2: string): seq<string> {
    var t := Texts(Get(fields, key));
    if t != [] then t
    else
      var t1 := Texts(Get(fields, alt1));
      if t1 != [] then t1 else Texts(Get(fields, alt2))
  }

  /** Positive passages: `pos_key`, else "positives", else "evidence". */
  function Positives(fields: map<string, Json>, posKey: string): seq<string> {
    TextsWithFallback(fields, posKey, "positives", "evidence")
  }

  /** Negative passages: `neg_key`, else "negatives", else "distractors". */
  function Negatives(fields: map<string, Json>, negKey: string): seq<string> {
    TextsWithFallback(fields, negKey, "negatives", "distractors")
  }

  /** One record per text, each pairing `claim` with that text under `label`. */
  function Labelled(claim: string, texts: seq<string>, labelValue: int): (r: seq<Pair>)
    ensures |r| == |texts|
    ensures forall i | 0 <= i < |r| :: r[i] == Pair(claim, texts[i], labelValue)
  {
    seq(|texts|, i requires 0 <= i < |texts| => Pair(claim, texts[i], labelValue))
  }

  /** The records `convert` writes for one dict item. */
  function ItemRecords(item: Json, claimKey: string, posKey: string, negKey: string): seq<Pair> {
    match item
    case Obj(fields) =>
      (match ClaimOf(fields, claimKey)
       case None => []
       case Some(c) => Labelled(c, Positives(fields, posKey), 1) + Labelled(c, Negatives(fields, negKey), 0))
    case _ => []
  }

  /** The records written for a sequence of items, in item order. */
  function Records(items: seq<Json>, claimKey: string, posKey: string, negKey: string): seq<Pair> {
    if items == [] then []
    else
      Records(items[..|items| - 1], claimKey, posKey, negKey)
        + ItemRecords(items[|items| - 1], claimKey, posKey, negKey)
  }

  /** The number of records carrying `label`. */
  function CountLabel(records: seq<Pair>, labelValue: int): nat {
    if records == [] then 0
    else CountLabel(records[..|records| - 1], labelValue) + (if records[|records| - 1].labelValue == labelValue then 1 else 0)
  }

  /** The error one line makes `convert` raise: it is malformed, or its item is not a dict. */
  function LineError(line: Line): Option<PrepError> {
    match line
    case Malformed => Some(MalformedLine)
    case Value(v) => if v.Obj? then None else Some(NotAnObject)
    case Blank => None
  }

  /** The error `convert` raises first, if any. */
  function FirstError(lines: seq<Line>): Option<PrepError> {
    if lines == [] then None
    else match FirstError(lines[..|lines| - 1])
      case Some(e) => Some(e)
      case None => LineError(lines[|lines| - 1])
  }

  /** What `convert` returns (with the records it wrote), or the error it raises. */
  function ConvertResult(lines: seq<Line>, claimKey: string, posKey: string, negKey: string): Result<Converted, PrepError> {
    match FirstError(lines)
    case Some(e) => Failure(e)
    case None =>
      var items := Values(lines);
      var rs := Records(items, claimKey, posKey, negKey);
      Success(Converted(rs, |items|, CountLabel(rs, 1), CountLabel(rs, 0)))
  }

  lemma {:induction false} FirstErrorPersists(a: seq<Line>, b: seq<Line>)
    requires FirstError(a).Some?
    ensures FirstError(a + b) == FirstError(a)
    decreases |b|
  {
    if b == [] {
      assert a + b == a;
    } else {
      FirstErrorPersists(a, b[..|b| - 1]);
      assert (a + b)[..|a + b| - 1] == a + b[..|b| - 1];
    }
  }

  lemma FirstTextSkip(fields: map<string, Json>, key: string, keys: seq<string>)
    requires NonBlank(Get(fields, key)).None?
    ensures FirstText(fields, [key] + keys) == FirstText(fields, keys)
  {
    assert ([key] + keys)[1..] == keys;
  }

  /**
   * The claim lookup of `convert`: the value under `claim_key` if it is a non-blank
   * str, else the first of query, question, claim_text that is one; then stripped.
   */
  method FindClaim(fields: map<string, Json>, claimKey: string) returns (claim: Option<string>)
    ensures claim == ClaimOf(fields, claimKey)
  {
    var value := Get(fields, claimKey);
    if value.Str? && !IsBlank(value.s) {
      FirstUsableAt(fields, [claimKey] + ClaimFallbackKeys, 0);
      return Some(Strip(value.s));
    }
    FirstTextSkip(fields, claimKey, ClaimFallbackKeys);
    claim := FindText(fields, ClaimFallbackKeys);
  }

  /** `extract_texts(obj.get(pos_key)) or extract_texts(obj.get("positives")) or extract_texts(obj.get("evidence"))`. */
  method FindPositives(fields: map<string, Json>, posKey: string) returns (pos: seq<string>)
    ensures pos == Positives(fields, posKey)
  {
    pos := ExtractTexts(Get(fields, posKey));
    if pos == [] {
      pos := ExtractTexts(Get(fields, "positives"));
      if pos == [] {
        pos := ExtractTexts(Get(fields, "evidence"));
      }
    }
  }

  /** `extract_texts(obj.get(neg_key)) or extract_texts(obj.get("negatives")) or extract_texts(obj.get("distractors"))`. */
  method FindNegatives(fields: map<string, Json>, negKey: string) returns (neg: seq<string>)
    ensures neg == Negatives(fields, negKey)
  {
    neg := ExtractTexts(Get(fields, negKey));
    if neg == [] {
      neg := ExtractTexts(Get(fields, "negatives"));
      if neg == [] {
        neg := ExtractTexts(Get(fields, "distractors"));
      }
    }
  }

  lemma {:induction false} CountLabelConcat(a: seq<Pair>, b: seq<Pair>, labelValue: int)
    ensures CountLabel(a + b, labelValue) == CountLabel(a, labelValue) + CountLabel(b, labelValue)
    decreases |b|
  {
    if b == [] {
      assert a + b == a;
    } else {
      CountLabelConcat(a, b[..|b| - 1], labelValue);
      assert (a + b)[..|a + b| - 1] == a + b[..|b| - 1];
    }
  }

  lemma {:induction false} CountLabelled(claim: string, texts: seq<string>, labelValue: int, other: int)
    ensures CountLabel(Labelled(claim, texts, labelValue), other) == if labelValue == other then |texts| else 0
    decreases |texts|
  {
    if texts != [] {
      var n := |texts| - 1;
      CountLabelled(claim, texts[..n], labelValue, other);
      assert Labelled(claim, texts, labelValue)[..n] == Labelled(claim, texts[..n], labelValue);
    }
  }

  /** One item's records add |pos| to the positive count and |neg| to the negative count. */
  lemma ItemCounts(records: seq<Pair>, claim: string, pos: seq<string>, neg: seq<string>)
    ensures CountLabel(records + Labelled(claim, pos, 1) + Labelled(claim, neg, 0), 1) == CountLabel(records, 1) + |pos|
    ensures CountLabel(records + Labelled(claim, pos, 1) + Labelled(claim, neg, 0), 0) == CountLabel(records, 0) + |neg|
  {
    var l1, l0 := Labelled(claim, pos, 1), Labelled(claim, neg, 0);
    CountLabelConcat(records + l1, l0, 1);
    CountLabelConcat(records + l1, l0, 0);
    CountLabelConcat(records, l1, 1);
    CountLabelConcat(records, l1, 0);
    CountLabelled(claim, pos, 1, 1);
    CountLabelled(claim, pos, 1, 0);
    CountLabelled(claim, neg, 0, 1);
    CountLabelled(claim, neg, 0, 0);
  }

  /**
   * The write loop of `convert`: one record per passage, pairing it with the claim
   * under `labelValue`, each followed by an increment of the matching counter.
   */
  method WritePairs(records: seq<Pair>, count: nat, claim: string, passages: seq<string>, labelValue: int)
    returns (records': seq<Pair>, count': nat)
    ensures records' == records + Labelled(claim, passages, labelValue)
    ensures count' == count + |passages|
  {
    records', count' := records, count;
    for k := 0 to |passages|
      invariant records' == records + Labelled(claim, passages[..k], labelValue)
      invariant count' == count + k
    {
      assert Labelled(claim, passages[..k + 1], labelValue) == Labelled(claim, passages[..k], labelValue) + [Pair(claim, passages[k], labelValue)];
      records' := records' + [Pair(claim, passages[k], labelValue)];
      count' := count' + 1;
    }
    assert passages[..|passages|] == passages;
  }

  lemma AppendAssoc<T>(a: seq<T>, b: seq<T>, c: seq<T>)
    ensures a + b + c == a + (b + c)
  {
  }

  /** Reading one more line extends the items by that line's value, if it has one. */
  lemma ValuesSnoc(lines: seq<Line>, i: nat)
    requires i < |lines|
    ensures Values(lines[..i + 1]) == Values(lines[..i]) + (if lines[i].Value? then [lines[i].v] else [])
  {
    assert lines[..i + 1][..i] == lines[..i];
  }

  /** Reading one more line after error-free ones raises exactly that line's error. */
  lemma FirstErrorSnoc(lines: seq<Line>, i: nat)
    requires i < |lines|
    requires FirstError(lines[..i]).None?
    ensures FirstError(lines[..i + 1]) == LineError(lines[i])
  {
    assert lines[..i + 1][..i] == lines[..i];
  }

  /** Once a line raises, the error of the whole file is that line's. */
  lemma ErrorAt(lines: seq<Line>, i: nat)
    requires i < |lines|
    requires FirstError(lines[..i + 1]).Some?
    ensures FirstError(lines) == FirstError(lines[..i + 1])
  {
    FirstErrorPersists(lines[..i + 1], lines[i + 1..]);
    assert lines[..i + 1] + lines[i + 1..] == lines;
  }

  /** The records of one more item are appended after those already written. */
  lemma RecordsSnoc(items: seq<Json>, item: Json, claimKey: string, posKey: string, negKey: string)
    ensures Records(items + [item], claimKey, posKey, negKey)
         == Records(items, claimKey, posKey, negKey) + ItemRecords(item, claimKey, posKey, negKey)
  {
    assert (items + [item])[..|items|] == items;
  }

  /**
   * The body of `convert`'s loop for one dict item: looks up the claim, and when
   * there is one, the positive and negative passages, and writes their records.
   */
  method ConvertItem(fields: map<string, Json>, claimKey: string, posKey: string, negKey: string,
                     records: seq<Pair>, posPairs: nat, negPairs: nat)
    returns (records': seq<Pair>, posPairs': nat, negPairs': nat)
    requires posPairs == CountLabel(records, 1) && negPairs == CountLabel(records, 0)
    ensures records' == records + ItemRecords(Obj(fields), claimKey, posKey, negKey)
    ensures posPairs' == CountLabel(records', 1) && negPairs' == CountLabel(records', 0)
  {
    records', posPairs', negPairs' := records, posPairs, negPairs;
    var claim := FindClaim(fields, claimKey);
    if claim.None? {
      assert records + [] == records;
      return;
    }
    var c := claim.value;
    var pos := FindPositives(fields, posKey);
    var neg := FindNegatives(fields, negKey);
    records', posPairs' := WritePairs(records', posPairs', c, pos, 1);
    records', negPairs' := WritePairs(records', negPairs', c, neg, 0);
    ItemCounts(records, c, pos, neg);
    var l1, l0 := Labelled(c, pos, 1), Labelled(c, neg, 0);
    assert ItemRecords(Obj(fields), claimKey, posKey, negKey) == l1 + l0;
    AppendAssoc(records, l1, l0);
  }

  /**
   * `convert`: iterates the lines as `iter_jsonl` yields them, counts every item,
   * skips items without a usable claim, and writes the positive records, then the
   * negative ones, updating the counters as it goes.
   */
  method Convert(lines: seq<Line>, claimKey: string, posKey: string, negKey: string)
    returns (r: Result<Converted, PrepError>)
    ensures r == ConvertResult(lines, claimKey, posKey, negKey)
  {
    var totalItems, posPairs, negPairs := 0, 0, 0;
    var records: seq<Pair> := [];
    for i := 0 to |lines|
      invariant FirstError(lines[..i]).None?
      invariant records == Records(Values(lines[..i]), claimKey, posKey, negKey)
      invariant totalItems == |Values(lines[..i])|
      invariant posPairs == CountLabel(records, 1) && negPairs == CountLabel(records, 0)
    {
      ValuesSnoc(lines, i);
      FirstErrorSnoc(lines, i);
      ghost var items := Values(lines[..i]);
      match lines[i]
      case Blank =>
        assert Values(lines[..i + 1]) == items + [] == items;
      case Malformed =>
        ErrorAt(lines, i);
        return Failure(MalformedLine);
      case Value(obj) =>
        totalItems := totalItems + 1;
        if !obj.Obj? {
          ErrorAt(lines, i);
          return Failure(NotAnObject);
        }
        RecordsSnoc(items, obj, claimKey, posKey, negKey);
        records, posPairs, negPairs := ConvertItem(obj.fields, claimKey, posKey, negKey, records, posPairs, negPairs);
    }
    assert lines[..|lines|] == lines;
    return Success(Converted(records, totalItems, posPairs, negPairs));
  }

  // ---------------------------------------------------------------------------
  // what convert guarantees about its output

  /** The shape of every record `convert` writes. */
  predicate WellFormed(p: Pair) {
    && p.text1 != [] && IsStripped(p.text1)
    && p.text2 != [] && IsStripped(p.text2)
    && (p.labelValue == 0 || p.labelValue == 1)
  }

  /** |pos| records under label 1 followed by |neg| under label 0, all pairing `claim` with a passage. */
  lemma PairsLayout(claim: string, pos: seq<string>, neg: seq<string>)
    ensures var rs := Labelled(claim, pos, 1) + Labelled(claim, neg, 0);
      && |rs| == |pos| + |neg|
      && (forall k | 0 <= k < |pos| :: rs[k] == Pair(claim, pos[k], 1))
      && (forall k | 0 <= k < |neg| :: rs[|pos| + k] == Pair(claim, neg[k], 0))
  {
    var l1, l0 := Labelled(claim, pos, 1), Labelled(claim, neg, 0);
    forall k | 0 <= k < |neg|
      ensures (l1 + l0)[|pos| + k] == Pair(claim, neg[k], 0)
    {
      assert (l1 + l0)[|l1| + k] == l0[k];
    }
  }

  /** An item without a usable claim writes no record (it is still counted). */
  lemma NoClaimNoRecords(fields: map<string, Json>, claimKey: string, posKey: string, negKey: string)
    requires ClaimOf(fields, claimKey).None?
    ensures ItemRecords(Obj(fields), claimKey, posKey, negKey) == []
  {
  }

  /**
   * An item with claim `c` writes |pos| records under label 1 followed by |neg|
   * under label 0, all pairing `c` with a passage.
   */
  lemma ItemRecordsLayout(fields: map<string, Json>, claimKey: string, posKey: string, negKey: string, c: string)
    requires ClaimOf(fields, claimKey) == Some(c)
    ensures var pos, neg, rs := Positives(fields, posKey), Negatives(fields, negKey),
                                ItemRecords(Obj(fields), claimKey, posKey, negKey);
      && |rs| == |pos| + |neg|
      && (forall k | 0 <= k < |pos| :: rs[k] == Pair(c, pos[k], 1))
      && (forall k | 0 <= k < |neg| :: rs[|pos| + k] == Pair(c, neg[k], 0))
  {
    PairsLayout(c, Positives(fields, posKey), Negatives(fields, negKey));
  }

  lemma ItemRecordsWellFormed(item: Json, claimKey: string, posKey: string, negKey: string)
    ensures forall k | 0 <= k < |ItemRecords(item, claimKey, posKey, negKey)| ::
      WellFormed(ItemRecords(item, claimKey, posKey, negKey)[k])
  {
    if item.Obj? && ClaimOf(item.fields, claimKey).Some? {
      var fields := item.fields;
      FirstTextIsStripped(fields, [claimKey] + ClaimFallbackKeys);
      TextsShape(Get(fields, posKey));
      TextsShape(Get(fields, "positives"));
      TextsShape(Get(fields, "evidence"));
      TextsShape(Get(fields, negKey));
      TextsShape(Get(fields, "negatives"));
      TextsShape(Get(fields, "distractors"));
      ItemRecordsLayout(fields, claimKey, posKey, negKey, ClaimOf(fields, claimKey).value);
    }
  }

  lemma {:induction false} RecordsWellFormed(items: seq<Json>, claimKey: string, posKey: string, negKey: string)
    ensures forall k | 0 <= k < |Records(items, claimKey, posKey, negKey)| ::
      WellFormed(Records(items, claimKey, posKey, negKey)[k])
  {
    if items != [] {
      RecordsWellFormed(items[..|items| - 1], claimKey, posKey, negKey);
      ItemRecordsWellFormed(items[|items| - 1], claimKey, posKey, negKey);
    }
  }

  /** With every label 0 or 1, the two counters add up to the number of records. */
  lemma {:induction false} CountLabelTotal(records: seq<Pair>)
    requires forall k | 0 <= k < |records| :: WellFormed(records[k])
    ensures CountLabel(records, 1) + CountLabel(records, 0) == |records|
  {
    if records != [] {
      CountLabelTotal(records[..|records| - 1]);
    }
  }

  /** `convert` raises only on a malformed line or an item that is not a dict. */
  lemma {:induction false} FirstErrorCause(lines: seq<Line>)
    ensures FirstError(lines).None? <==> forall k | 0 <= k < |lines| :: LineError(lines[k]).None?
  {
    if lines != [] {
      var n := |lines| - 1;
      FirstErrorCause(lines[..n]);
      assert forall k | 0 <= k < n :: lines[..n][k] == lines[k];
    }
  }

  /**
   * What a successful `convert` reports: it counted every non-blank line, its two
   * counters add up to the records written, and every record is well formed.
   */
  lemma ConvertTotals(lines: seq<Line>, claimKey: string, posKey: string, negKey: string)
    requires ConvertResult(lines, claimKey, posKey, negKey).Success?
    ensures var c := ConvertResult(lines, claimKey, posKey, negKey).value;
      && c.totalItems == |lines| - CountBlank(lines)
      && c.posPairs + c.negPairs == |c.records|
      && forall k | 0 <= k < |c.records| :: WellFormed(c.records[k])
  {
    FirstErrorCause(lines);
    assert !HasMalformed(lines) by {
      forall k | 0 <= k < |lines| ensures !lines[k].Malformed? {
        assert LineError(lines[k]).None?;
      }
    }
    ValuesCount(lines);
    var items := Values(lines);
    RecordsWellFormed(items, claimKey, posKey, negKey);
    CountLabelTotal(Records(items, claimKey, posKey, negKey));
  }
}
