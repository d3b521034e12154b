/** JSON values as Python's `json` module decodes them, and the Python operations the
    comment API parser applies to them: truthiness, `dict.get`, `a or b or …` chains,
    `str(x)` and `int(x)`. */
module Json {
  import opened Wrappers
  import opened Text
  import opened Seqs

  /** A decoded JSON value; numbers are integral. */
  datatype Json =
    | Null
    | Bool(b: bool)
    | Int(i: int)
    | Str(s: string)
    | Array(items: seq<Json>)
    | Object(fields: map<string, Json>)

  /** Python truthiness: `None`, `False`, `0`, `""`, `[]` and `{}` are false. */
  predicate Truthy(j: Json) {
    match j
    case Null => false
    case Bool(b) => b
    case Int(i) => i != 0
    case Str(s) => s != ""
    case Array(xs) => xs != []
    case Object(m) => m != map[]
  }

  /** `d.get(k)`: `None` for a missing key. */
  function Get(m: map<string, Json>, k: string): Json {
    if k in m then m[k] else Null
  }

  /** For each key in turn, the key itself when `d.get(key)` is truthy. */
  function Probes(m: map<string, Json>, keys: seq<string>): seq<Option<string>> {
    seq(|keys|, i requires 0 <= i < |keys| => if Truthy(Get(m, keys[i])) then Some(keys[i]) else None)
  }

  /** The key at which `d.get(keys[0]) or d.get(keys[1]) or …` stops: the first key whose
      value is truthy, `None` when there is none. */
  function Probe(m: map<string, Json>, keys: seq<string>): (r: Option<string>)
    ensures r.Some? ==> r.value in m && Truthy(m[r.value])
    ensures r.None? <==> forall i :: 0 <= i < |keys| ==> !Truthy(Get(m, keys[i]))
    ensures forall i :: IsFirst(Probes(m, keys), i) ==> r == Some(keys[i])
  {
    var ps := Probes(m, keys);
    var r := First(ps);
    assert forall i :: 0 <= i < |keys| ==> (ps[i].None? <==> !Truthy(Get(m, keys[i])));
    assert r.Some? ==> exists i :: IsFirst(ps, i) && ps[i] == r;
    r
  }

  /** `d.get(keys[0]) or … or default`. */
  function Or(m: map<string, Json>, keys: seq<string>, default: Json): Json {
    match Probe(m, keys)
    case Some(k) => m[k]
    case None => default
  }

  /** The first truthy key of `keys` is the `i`-th when the ones before it are falsy. */
  lemma ProbeAt(m: map<string, Json>, keys: seq<string>, i: nat)
    requires i < |keys| && Truthy(Get(m, keys[i]))
    requires forall j :: 0 <= j < i ==> !Truthy(Get(m, keys[j]))
    ensures Probe(m, keys) == Some(keys[i]) && Or(m, keys, Null) == m[keys[i]]
  {
    assert IsFirst(Probes(m, keys), i);
  }

  /** Python's `str(x)`. A list or a dict is written as a fixed placeholder rather than
      Python's `repr`. */
  function PyStr(j: Json): (r: string)
    ensures Truthy(j) ==> r != ""
  {
    match j
    case Null => "None"
    case Bool(b) => if b then "True" else "False"
    case Int(i) => IntToString(i)
    case Str(s) => s
    case Array(_) => "[...]"
    case Object(_) => "{...}"
  }

  /** Python's `int(s)` on a string: surrounding whitespace, an optional sign and ASCII
      digits; `None` where Python raises `ValueError`. */
  function ParseInt(s: string): Option<int> {
    var t := Strip(s);
    var digits := if t != [] && (t[0] == '+' || t[0] == '-') then t[1..] else t;
    if digits != [] && AllDigits(digits) then
      Some(if t[0] == '-' then -(DigitsValue(digits) as int) else DigitsValue(digits))
    else None
  }

  /** Python's `int(x)` on a decoded value; `None` where Python raises. */
  function PyInt(j: Json): Option<int> {
    match j
    case Bool(b) => Some(if b then 1 else 0)
    case Int(i) => Some(i)
    case Str(s) => ParseInt(s)
    case _ => None
  }

  /** `int(str(i)) == i`: the integer text `str` writes reads back as the same integer,
      whether it arrives as a JSON number or as a JSON string. */
  lemma PyIntOfPyStr(i: int)
    ensures PyInt(Str(PyStr(Int(i)))) == Some(i)
    ensures PyInt(Int(i)) == Some(i)
  {
    var s := IntToString(i);
    StripIntText(i);
    var n: nat := if i < 0 then -i else i;
    NatToStringRoundTrip(n);
    if i < 0 {
      assert s[1..] == NatToString(n);
    } else {
      assert s[0] != '+' && s[0] != '-';
    }
  }

  /** The text of an integer has no surrounding whitespace. */
  lemma StripIntText(i: int)
    ensures Strip(IntToString(i)) == IntToString(i)
  {
    var s := IntToString(i);
    var d := NatToString(if i < 0 then -i else i);
    assert IsDigit(d[0]) && IsDigit(d[|d| - 1]);
    assert s[|s| - 1] == d[|d| - 1];
    assert s[0] == '-' || s[0] == d[0];
    StripAround("", s, "");
    assert "" + s + "" == s;
  }
}
