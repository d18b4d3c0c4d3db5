/** JSON documents as values; objects keep their insertion order. */
module Json {
  datatype Json = Null | Bool(b: bool) | Num(n: int) | Str(s: string) | Arr(items: seq<Json>) | Obj(fields: seq<(string, Json)>)

  datatype PathStep = Key(k: string) | Index(i: nat)
  type Path = seq<PathStep>
}
