/** The per-request SOAP::XML object as a value: the facts the client
    copies into it before the request is sent. Rendering it as XML
    (`to_xml`) is not part of this model and is passed around as a function. */
module SoapXml {
  import opened Wrappers
  import opened RubyValues
  import opened Wsdl

  /** The SOAP versions SOAP::XML accepts. */
  type SoapVersion = v: int | v == 1 || v == 2 witness 1

  /** One entry of the SOAP input tuple: a symbol (namespace identifier or
      input element name) or the hash of input-tag attributes. */
  datatype InputPart = Symbol(name: string) | Attributes(attrs: map<Key, Value>)

  datatype SoapRecord = SoapRecord(
    version: SoapVersion,
    endpoint: Option<string>,
    namespaceIdentifier: Option<string>,
    namespace: Option<string>,
    elementFormDefault: Option<string>,   // None: SOAP::XML keeps its own default
    body: Value,
    namespaces: seq<(Path, string)>,      // use_namespace calls, in order
    types: seq<(Path, string)>,           // define_type calls, in order
    input: seq<InputPart>,
    wsseAttached: bool)

  /** SOAP::XML.new: nothing configured yet, SOAP version 1. */
  function NewSoap(): SoapRecord {
    SoapRecord(1, None, None, None, None, Nil, [], [], [], false)
  }

  /** SOAP::XML#use_namespace, recorded as a call. */
  function UseNamespace(s: SoapRecord, path: Path, uri: string): SoapRecord {
    s.(namespaces := s.namespaces + [(path, uri)])
  }

  /** SOAP::XML#define_type, recorded as a call. */
  function DefineType(s: SoapRecord, path: Path, typeName: string): SoapRecord {
    s.(types := s.types + [(path, typeName)])
  }

  /** Ruby's Array#compact: drops the nil entries and keeps the order of
      the others (CompactAppend). */
  function Compact<T>(s: seq<Option<T>>): (r: seq<T>)
    ensures |r| <= |s|
    ensures forall i :: 0 <= i < |r| ==> Some(r[i]) in s
    ensures forall i :: 0 <= i < |s| && s[i].Some? ==> s[i].value in r
    ensures (forall i :: 0 <= i < |s| ==> s[i].Some?) ==> |r| == |s|
  {
    if s == [] then []
    else (if s[0].Some? then [s[0].value] else []) + Compact(s[1..])
  }

  /** Compact keeps every entry as often as it occurs: the result holds t
      exactly as many times as the input holds Some(t). */
  lemma {:induction false} CompactMultiplicity<T>(s: seq<Option<T>>, t: T)
    ensures multiset(Compact(s))[t] == multiset(s)[Some(t)]
  {
    if s != [] {
      assert s == [s[0]] + s[1..];
      CompactMultiplicity(s[1..], t);
    }
  }

  /** Compacting a concatenation compacts each part. */
  lemma {:induction false} CompactAppend<T>(a: seq<Option<T>>, b: seq<Option<T>>)
    ensures Compact(a + b) == Compact(a) + Compact(b)
  {
    if a == [] {
      assert a + b == b;
    } else {
      assert (a + b)[1..] == a[1..] + b;
      CompactAppend(a[1..], b);
    }
  }

  /** Compacting one entry keeps it exactly when it is present. */
  lemma CompactSingle<T>(x: Option<T>)
    ensures Compact([x]) == if x.Some? then [x.value] else []
  {
    assert [x][1..] == [];
  }

  /** The SOAP input tuple `[namespace, input, attributes].compact`. */
  function InputTuple(namespace: Option<string>, input: Option<string>, attrs: map<Key, Value>): (r: seq<InputPart>)
    ensures |r| == 1 + (if namespace.Some? then 1 else 0) + (if input.Some? then 1 else 0)
    ensures r[|r| - 1] == Attributes(attrs)
    ensures namespace.Some? ==> r[0] == Symbol(namespace.value)
    ensures input.Some? ==> r[|r| - 2] == Symbol(input.value)
  {
    var ns := if namespace.Some? then Some(Symbol(namespace.value)) else None;
    var name := if input.Some? then Some(Symbol(input.value)) else None;
    InputTupleParts(ns, name, Some(Attributes(attrs)));
    Compact([ns, name, Some(Attributes(attrs))])
  }

  /** A three-entry compact keeps exactly the present entries, in order. */
  lemma InputTupleParts(a: Option<InputPart>, b: Option<InputPart>, c: Option<InputPart>)
    ensures Compact([a, b, c]) == (if a.Some? then [a.value] else []) + (if b.Some? then [b.value] else []) + (if c.Some? then [c.value] else [])
  {
    assert [a, b, c] == [a] + [b] + [c];
    CompactSingle(a);
    CompactSingle(b);
    CompactSingle(c);
    CompactAppend([a] + [b], [c]);
    CompactAppend([a], [b]);
  }
}
