/** Parsed JSON values and the lines of a JSONL file, as the dataset tools see them. */
module Json {
  import opened Common
  import opened Text

  /**
   * A value as Python's `json.loads` returns it: None, bool, int, float,
   * str, list or dict (a dict keeps the last value of a repeated key).
   */
  datatype Json =
    | Null
    | Bool(b: bool)
    | Int(i: int)
    | Float(x: real)
    | Str(s: string)
    | Arr(items: seq<Json>)
    | Obj(fields: map<string, Json>)

  /** `dict.get(key)`: a missing key reads as None. */
  function Get(fields: map<string, Json>, key: string): (v: Json)
    ensures key !in fields ==> v == Null
    ensures key in fields ==> v == fields[key]
  {
    if key in fields then fields[key] else Null
  }

  /**
   * One line of a JSONL file after `line.strip()`: blank, or the value
   * `json.loads` decodes, or text it cannot decode (it raises).
   */
  datatype Line = Blank | Value(v: Json) | Malformed

  /** Reads one raw line; `parse` stands for `json.loads`, None when it raises. */
  function ReadLine(raw: string, parse: string -> Option<Json>): (l: Line)
    ensures l.Blank? <==> IsBlank(raw)
    ensures l.Value? ==> parse(Strip(raw)) == Some(l.v)
    ensures l.Malformed? ==> parse(Strip(raw)).None?
  {
    if IsBlank(raw) then Blank
    else match parse(Strip(raw))
      case Some(v) => Value(v)
      case None => Malformed
  }
}
