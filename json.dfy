/**
 * The two JSON shapes the startup sequence handles, at the level of detail
 * its decisions depend on:
 *  - an object it builds (ObjectNode.put), kept as an ordered list of
 *    fields with distinct names, as Jackson keeps insertion order;
 *  - a tree it reads (readTree, then path(key).asText(null)), kept as the
 *    text each key yields, None standing for a missing key or a JSON null.
 */
module Json {
  import opened Wrappers

  type Fields = seq<(string, string)>

  /** Names of the fields, in order. */
  function Names(o: Fields): (ns: seq<string>)
    ensures |ns| == |o|
  {
    if o == [] then [] else [o[0].0] + Names(o[1..])
  }

  /** The i-th name is the name of the i-th field. */
  lemma {:induction false} NamesAreFieldNames(o: Fields)
    ensures forall i :: 0 <= i < |o| ==> Names(o)[i] == o[i].0
  {
    if o != [] {
      NamesAreFieldNames(o[1..]);
      assert forall i :: 1 <= i < |o| ==> Names(o)[i] == Names(o[1..])[i - 1];
    }
  }

  /** The value stored under a name, if any (ObjectNode.get on a text field). */
  function Get(o: Fields, name: string): (r: Option<string>)
    ensures r.Some? <==> name in Names(o)
  {
    if o == [] then None
    else if o[0].0 == name then Some(o[0].1)
    else Get(o[1..], name)
  }

  /** ObjectNode.put: replace the value of an existing field in place, or
      append a new field at the end. */
  function Put(o: Fields, name: string, value: string): (r: Fields)
    ensures Get(r, name) == Some(value)
    ensures Names(r) == if name in Names(o) then Names(o) else Names(o) + [name]
  {
    if o == [] then [(name, value)]
    else
      assert Names(o) == [o[0].0] + Names(o[1..]);
      if o[0].0 == name then [(name, value)] + o[1..]
      else
        var rest := Put(o[1..], name, value);
        assert Names([o[0]] + rest) == [o[0].0] + Names(rest);
        [o[0]] + rest
  }

  /** Put leaves every other field as it was. */
  lemma {:induction false} PutKeepsOthers(o: Fields, name: string, value: string, other: string)
    requires other != name
    ensures Get(Put(o, name, value), other) == Get(o, other)
  {
    if o != [] && o[0].0 != name {
      PutKeepsOthers(o[1..], name, value, other);
      var r := [o[0]] + Put(o[1..], name, value);
      assert r[1..] == Put(o[1..], name, value);
    }
  }

  /** What readTree made of a response body. */
  datatype Parsed =
    | Malformed                              // readTree threw
    | Tree(texts: map<string, Option<string>>) // per key: the text asText(null) yields

  /** path(key).asText(null): a missing key reads as null. */
  function TextAt(texts: map<string, Option<string>>, key: string): Option<string> {
    if key in texts then texts[key] else None
  }

  /** Optional.ofNullable(first).orElse(second). */
  function OrElse(first: Option<string>, second: Option<string>): Option<string> {
    if first.Some? then first else second
  }

  /** Reference reading of a field known under several spellings: the text of
      the first key, in order, whose lookup is not null. */
  function FirstNonNull(texts: map<string, Option<string>>, keys: seq<string>): (r: Option<string>)
    ensures r.Some? <==> exists i :: 0 <= i < |keys| && TextAt(texts, keys[i]).Some?
    ensures r.Some? ==> exists i :: 0 <= i < |keys| && r == TextAt(texts, keys[i])
  {
    if keys == [] then None
    else if TextAt(texts, keys[0]).Some? then TextAt(texts, keys[0])
    else FirstNonNull(texts, keys[1..])
  }

  /** A key whose lookup is not null hides every later spelling. */
  lemma {:induction false} FirstNonNullStopsAt(texts: map<string, Option<string>>, keys: seq<string>, i: int)
    requires 0 <= i < |keys| && TextAt(texts, keys[i]).Some?
    requires forall j :: 0 <= j < i ==> TextAt(texts, keys[j]).None?
    ensures FirstNonNull(texts, keys) == TextAt(texts, keys[i])
  {
    if i > 0 {
      FirstNonNullStopsAt(texts, keys[1..], i - 1);
    }
  }

  /** OrElse over two lookups is the two-key instance of FirstNonNull. */
  lemma OrElseIsFirstNonNull(texts: map<string, Option<string>>, primary: string, secondary: string)
    ensures OrElse(TextAt(texts, primary), TextAt(texts, secondary)) == FirstNonNull(texts, [primary, secondary])
  {
    assert [primary, secondary][1..] == [secondary];
    assert [secondary][1..] == [];
  }
}
