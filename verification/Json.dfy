/** JSON values as the conversion crate sees them: numbers keep their source text, objects are unordered. */
module Json {
  /** The characters of a number. */
  predicate IsNumberText(t: string) {
    t != "" && forall i :: 0 <= i < |t| ==> '0' <= t[i] <= '9' || t[i] in ['+', '-', '.', 'e', 'E']
  }

  type Numeral = t: string | IsNumberText(t) witness "0"

  datatype Value =
    | Null
    | Bool(flag: bool)
    | Num(text: Numeral)
    | Str(value: string)
    | Arr(items: seq<Value>)
    | Obj(members: map<string, Value>)

  datatype Option<+T> = None | Some(value: T)

  datatype Result<+T, +E> = Ok(value: T) | Err(error: E)

  function BoolText(flag: bool): string {
    if flag then "true" else "false"
  }

  /** True when `s` ends with `suffix`. */
  predicate EndsWith(s: string, suffix: string) {
    |suffix| <= |s| && s[|s| - |suffix|..] == suffix
  }

  /** The part of `s` before a suffix it ends with. */
  function StripSuffix(s: string, suffix: string): (r: Option<string>)
    ensures r.Some? ==> r.value + suffix == s
  {
    if EndsWith(s, suffix) then Some(s[..|s| - |suffix|]) else None
  }

  /** True when `needle` occurs somewhere in `s`. */
  predicate Contains(s: string, needle: string) {
    needle <= s || (s != "" && Contains(s[1..], needle))
  }

  /** One of several values that serde_json prints alike: scalars become text, a singleton array its item. */
  function Normalize(v: Value, field: string): Value {
    match v
    case Obj(m) => if m == map[] then Null else Obj(map k | k in m :: Normalize(m[k], k))
    case Arr(items) =>
      if |items| == 1 then Normalize(items[0], field)
      else Arr(seq(|items|, i requires 0 <= i < |items| => Normalize(items[i], field)))
    case Bool(flag) => Str(BoolText(flag))
    case Num(text) => Str(text)
    case Str(text) =>
      if field == "@uri" && EndsWith(text, ".xml") then Str(text[..|text| - 4] + ".json") else v
    case Null => Null
  }
}
