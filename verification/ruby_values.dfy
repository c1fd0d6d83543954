/** The Ruby values a caller hands to Client#request: symbols, strings,
    hashes and the rest, as one tagged variant. */
module RubyValues {
  import opened Wrappers

  /** A hash key: Ruby tells the symbol :body apart from the string "body". */
  datatype Key = SymKey(name: string) | StrKey(text: string)

  datatype Value =
    | Nil
    | Bool(b: bool)
    | Int(i: int)
    | Str(s: string)
    | Sym(name: string)
    | List(items: seq<Value>)
    | Hash(entries: map<Key, Value>)

  /** The key Client#preconfigure pulls out of the attribute hash. */
  const BodyKey: Key := SymKey("body")

  /** Ruby's `to_sym`: defined on symbols and strings only; any other
      receiver raises NoMethodError, which is None here. */
  function ToSym(v: Value): (r: Option<string>)
    ensures r.Some? <==> (v.Sym? || v.Str?)
    ensures v.Sym? ==> r == Some(v.name)
    ensures v.Str? ==> r == Some(v.s)
  {
    match v
    case Sym(name) => Some(name)
    case Str(s) => Some(s)
    case _ => None
  }

  /** A symbol and a string with the same text name the same symbol. */
  lemma SymbolAndStringAgree(text: string)
    ensures ToSym(Sym(text)) == ToSym(Str(text)) == Some(text)
  {
  }
}
