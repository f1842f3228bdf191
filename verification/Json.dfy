/** Decoded JSON (internal/web/wire): the trees the typed decoders read. Number literals are
    integers or decimals, as json.Number keeps them apart. */
module Json {
  import opened Text

  datatype Json =
    | JNull
    | JBool(b: bool)
    | JInt(n: int)
    | JDec(x: real)
    | JStr(s: string)
    | JArr(items: seq<Json>)
    | JObj(fields: map<string, Json>)

  function Get(m: map<string, Json>, key: string): Json {
    if key in m then m[key] else JNull
  }

  /** safeIndex */
  function Slot(list: seq<Json>, i: nat): Json {
    if i < |list| then list[i] else JNull
  }

  /** Every element converted. */
  function MapSeq<A, B>(f: A -> B, s: seq<A>): (r: seq<B>)
    ensures |r| == |s| && forall i :: 0 <= i < |s| ==> r[i] == f(s[i])
  {
    seq(|s|, i requires 0 <= i < |s| => f(s[i]))
  }
}
