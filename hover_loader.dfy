/**
 * Reading the reranker pairs back (backend/datasets/hover_loader.py): a validating
 * filter over the lines of a JSONL file, with an early stop at `limit`, and the
 * projection into cross-encoder inputs.
 */
module HoverLoader {
  import opened Common
  import opened Json
  import PrepareHover

  type Pair = PrepareHover.Pair

  /** Why `load_reranker_pairs` raises: a non-blank line `json.loads` rejects. */
  datatype LoadError = UndecodableLine

  /**
   * `lab in (0, 1)` compares with `==`, so 0, 0.0 and False are accepted as 0
   * and 1, 1.0 and True as 1; `int(lab)` then gives the label.
   */
  function LabelOf(lab: Json): (r: Option<int>)
    ensures r == Some(0) <==> lab == Int(0) || lab == Float(0.0) || lab == Bool(false)
    ensures r == Some(1) <==> lab == Int(1) || lab == Float(1.0) || lab == Bool(true)
    ensures r.Some? ==> r.value == 0 || r.value == 1
  {
    match lab
    case Int(i) => if i == 0 || i == 1 then Some(i) else None
    case Float(x) => if x == 0.0 then Some(0) else if x == 1.0 then Some(1) else None
    case Bool(b) => Some(if b then 1 else 0)
    case _ => None
  }

  /**
   * The record kept for one decoded line: a dict whose text1 and text2 are str and
   * whose label passes `LabelOf`; the kept record has just those three entries.
   */
  function Accepted(v: Json): (r: Option<Pair>)
    ensures r.Some? <==>
      v.Obj? && Get(v.fields, "text1").Str? && Get(v.fields, "text2").Str? && LabelOf(Get(v.fields, "label")).Some?
    ensures r.Some? ==>
      && Get(v.fields, "text1") == Str(r.value.text1)
      && Get(v.fields, "text2") == Str(r.value.text2)
      && LabelOf(Get(v.fields, "label")) == Some(r.value.labelValue)
  {
    match v
    case Obj(fields) =>
      var t1, t2, lab := Get(fields, "text1"), Get(fields, "text2"), LabelOf(Get(fields, "label"));
      if t1.Str? && t2.Str? && lab.Some? then Some(PrepareHover.Pair(t1.s, t2.s, lab.value)) else None
    case _ => None
  }

  /** The records every valid line of the file gives, in file order, ignoring any limit. */
  function ValidPairs(lines: seq<Line>): seq<Pair> {
    if lines == [] then []
    else
      var rest := ValidPairs(lines[1..]);
      match lines[0]
      case Value(v) => (match Accepted(v) case Some(p) => [p] + rest case None => rest)
      case _ => rest
  }

  /** The largest number of records a `limit` lets through: the check follows the append. */
  function Cap(n: int): nat {
    if n < 1 then 1 else n
  }

  /**
   * The loader reading `lines` once `out` has been collected: it skips blank lines,
   * non-dicts and invalid records, raises on an undecodable line, and stops as soon
   * as the records collected reach `limit`.
   */
  function Load(lines: seq<Line>, out: seq<Pair>, limit: Option<int>): Result<seq<Pair>, LoadError> {
    if lines == [] then Success(out)
    else match lines[0]
      case Blank => Load(lines[1..], out, limit)
      case Malformed => Failure(UndecodableLine)
      case Value(v) =>
        match Accepted(v)
        case None => Load(lines[1..], out, limit)
        case Some(p) =>
          if limit.Some? && |out + [p]| >= limit.value then Success(out + [p])
          else Load(lines[1..], out + [p], limit)
  }

  /** `load_reranker_pairs(path, limit)` on the lines of the file. */
  function LoadSpec(lines: seq<Line>, limit: Option<int>): Result<seq<Pair>, LoadError> {
    Load(lines, [], limit)
  }

  /** `load_reranker_pairs`: one pass over the lines, appending valid records, with the early break. */
  method LoadRerankerPairs(lines: seq<Line>, limit: Option<int>) returns (r: Result<seq<Pair>, LoadError>)
    ensures r == LoadSpec(lines, limit)
  {
    var out: seq<Pair> := [];
    var i := 0;
    while i < |lines|
      invariant 0 <= i <= |lines|
      invariant Load(lines[i..], out, limit) == LoadSpec(lines, limit)
    {
      assert lines[i..][1..] == lines[i + 1..];
      match lines[i] {
        case Blank =>
        case Malformed =>
          return Failure(UndecodableLine);
        case Value(obj) =>
          if !obj.Obj? {
          } else if !Get(obj.fields, "text1").Str? || !Get(obj.fields, "text2").Str? {
          } else {
            var lab := LabelOf(Get(obj.fields, "label"));
            if lab.Some? {
              out := out + [PrepareHover.Pair(obj.fields["text1"].s, obj.fields["text2"].s, lab.value)];
              if limit.Some? && |out| >= limit.value {
                return Success(out);
              }
            }
          }
      }
      i := i + 1;
    }
    return Success(out);
  }

  /**
   * What the loader returns, from a state below the limit: the records collected
   * followed by a prefix of the valid records left; all of them unless it stopped at
   * the limit; never more than `Cap(limit)`; and it raises only on an undecodable line.
   */
  lemma {:induction false} LoadProperties(lines: seq<Line>, out: seq<Pair>, limit: Option<int>)
    requires limit.None? || |out| < limit.value
    ensures Load(lines, out, limit).Failure? ==> exists i | 0 <= i < |lines| :: lines[i].Malformed?
    ensures Load(lines, out, limit).Success? ==>
      var got := Load(lines, out, limit).value;
      && got <= out + ValidPairs(lines)
      && (limit.None? ==> got == out + ValidPairs(lines))
      && (limit.Some? ==> |got| <= Cap(limit.value))
      && (limit.Some? && |got| < limit.value ==> got == out + ValidPairs(lines))
  {
    if lines != [] {
      var rest := lines[1..];
      LoadProperties(rest, out, limit);
      assert forall i | 0 <= i < |rest| :: rest[i] == lines[i + 1];
      match lines[0]
      case Blank =>
      case Malformed =>
      case Value(v) =>
        match Accepted(v)
        case None =>
        case Some(p) =>
          assert out + ([p] + ValidPairs(rest)) == out + [p] + ValidPairs(rest);
          if !(limit.Some? && |out + [p]| >= limit.value) {
            LoadProperties(rest, out + [p], limit);
          }
    }
  }

  /** A file without undecodable lines always loads. */
  lemma {:induction false} LoadSucceeds(lines: seq<Line>, out: seq<Pair>, limit: Option<int>)
    requires forall i | 0 <= i < |lines| :: !lines[i].Malformed?
    ensures Load(lines, out, limit).Success?
  {
    if lines != [] {
      var rest := lines[1..];
      assert forall i | 0 <= i < |rest| :: rest[i] == lines[i + 1];
      LoadSucceeds(rest, out, limit);
      if lines[0].Value? && Accepted(lines[0].v).Some? {
        LoadSucceeds(rest, out + [Accepted(lines[0].v).value], limit);
      }
    }
  }

  /** Every record the valid lines give has label 0 or 1. */
  lemma {:induction false} ValidPairsLabels(lines: seq<Line>)
    ensures forall k | 0 <= k < |ValidPairs(lines)| ::
      ValidPairs(lines)[k].labelValue == 0 || ValidPairs(lines)[k].labelValue == 1
  {
    if lines != [] {
      ValidPairsLabels(lines[1..]);
    }
  }

  /**
   * `load_reranker_pairs` without a limit returns every valid record in file order;
   * with one, a prefix of them no longer than `Cap(limit)`; each with label 0 or 1.
   */
  lemma LoadSpecProperties(lines: seq<Line>, limit: Option<int>)
    ensures LoadSpec(lines, limit).Success? ==>
      var got := LoadSpec(lines, limit).value;
      && got <= ValidPairs(lines)
      && (limit.None? ==> got == ValidPairs(lines))
      && (limit.Some? ==> |got| <= Cap(limit.value))
      && forall k | 0 <= k < |got| :: got[k].labelValue == 0 || got[k].labelValue == 1
    ensures (forall i | 0 <= i < |lines| :: !lines[i].Malformed?) ==> LoadSpec(lines, limit).Success?
  {
    ValidPairsLabels(lines);
    if limit.None? || 0 < limit.value {
      LoadProperties(lines, [], limit);
      assert [] + ValidPairs(lines) == ValidPairs(lines);
    } else {
      LoadAtMostOne(lines, limit.value);
    }
    if forall i | 0 <= i < |lines| :: !lines[i].Malformed? {
      LoadSucceeds(lines, [], limit);
    }
  }

  /** With `limit <= 0` the loader still appends the first valid record before the check stops it. */
  lemma {:induction false} LoadAtMostOne(lines: seq<Line>, n: int)
    requires n <= 0
    ensures Load(lines, [], Some(n)).Success? ==>
      Load(lines, [], Some(n)).value == (if ValidPairs(lines) == [] then [] else [ValidPairs(lines)[0]])
  {
    if lines != [] {
      LoadAtMostOne(lines[1..], n);
    }
  }

  // ---------------------------------------------------------------------------
  // to_crossencoder_inputs

  /** `to_crossencoder_inputs`: the (text1, text2) tuples and the labels as floats, pair by pair. */
  method ToCrossEncoderInputs(pairs: seq<Pair>) returns (texts: seq<(string, string)>, labels: seq<real>)
    ensures |texts| == |pairs| && |labels| == |pairs|
    ensures forall k | 0 <= k < |pairs| :: texts[k] == (pairs[k].text1, pairs[k].text2)
    ensures forall k | 0 <= k < |pairs| :: labels[k] == pairs[k].labelValue as real
    ensures (forall k | 0 <= k < |pairs| :: pairs[k].labelValue == 0 || pairs[k].labelValue == 1) ==>
      forall k | 0 <= k < |labels| :: labels[k] == 0.0 || labels[k] == 1.0
  {
    texts, labels := [], [];
    for k := 0 to |pairs|
      invariant |texts| == k && |labels| == k
      invariant forall j | 0 <= j < k :: texts[j] == (pairs[j].text1, pairs[j].text2)
      invariant forall j | 0 <= j < k :: labels[j] == pairs[j].labelValue as real
    {
      texts := texts + [(pairs[k].text1, pairs[k].text2)];
      labels := labels + [pairs[k].labelValue as real];
    }
  }

  // ---------------------------------------------------------------------------
  // the writer/reader round trip

  /** The dict `convert` writes for a record: exactly the keys text1, text2 and label. */
  function AsDict(p: Pair): (v: Json)
    ensures v.Obj? && v.fields.Keys == {"text1", "text2", "label"}
  {
    Obj(map["text1" := Str(p.text1), "text2" := Str(p.text2), "label" := Int(p.labelValue)])
  }

  /** A record with label 0 or 1 read back from its dict is the same record. */
  lemma AcceptedAsDict(p: Pair)
    requires p.labelValue == 0 || p.labelValue == 1
    ensures Accepted(AsDict(p)) == Some(p)
  {
    var f := AsDict(p).fields;
    assert Get(f, "text1") == Str(p.text1);
    assert Get(f, "text2") == Str(p.text2);
    assert Get(f, "label") == Int(p.labelValue);
  }

  /** The lines of the file `convert` writes, one dict per record. */
  function Written(records: seq<Pair>): (lines: seq<Line>)
    ensures |lines| == |records|
    ensures forall k | 0 <= k < |records| :: lines[k] == Value(AsDict(records[k]))
  {
    seq(|records|, k requires 0 <= k < |records| => Value(AsDict(records[k])))
  }

  /** Every record with label 0 or 1 that is written is read back, unchanged and in order. */
  lemma {:induction false} ReadBack(records: seq<Pair>)
    requires forall k | 0 <= k < |records| :: records[k].labelValue == 0 || records[k].labelValue == 1
    ensures ValidPairs(Written(records)) == records
  {
    if records != [] {
      ReadBack(records[1..]);
      assert Written(records)[1..] == Written(records[1..]);
      AcceptedAsDict(records[0]);
    }
  }

  /**
   * Round trip: what a successful `convert` writes, `load_reranker_pairs` with no
   * limit returns unchanged.
   */
  lemma ConvertThenLoad(lines: seq<Line>, claimKey: string, posKey: string, negKey: string)
    requires PrepareHover.ConvertResult(lines, claimKey, posKey, negKey).Success?
    ensures var rs := PrepareHover.ConvertResult(lines, claimKey, posKey, negKey).value.records;
      LoadSpec(Written(rs), None) == Success(rs)
  {
    var rs := PrepareHover.ConvertResult(lines, claimKey, posKey, negKey).value.records;
    PrepareHover.ConvertTotals(lines, claimKey, posKey, negKey);
    assert forall k | 0 <= k < |rs| :: rs[k].labelValue == 0 || rs[k].labelValue == 1 by {
      forall k | 0 <= k < |rs| ensures rs[k].labelValue == 0 || rs[k].labelValue == 1 {
        assert PrepareHover.WellFormed(rs[k]);
      }
    }
    ReadBack(rs);
    LoadSpecProperties(Written(rs), None);
  }
}
