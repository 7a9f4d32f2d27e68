/** The JSON values that `JSON.parse` produces, JavaScript property access on them, and the text
    `Array.prototype.join` gives each of them. */
module Json {
  import opened Outcomes
  import Text

  /** A parsed JSON value. Numbers are limited to integers. */
  datatype Value =
    | Null
    | Bool(b: bool)
    | Number(n: int)
    | Str(s: string)
    | Array(items: seq<Value>)
    | Object(members: map<string, Value>)

  /** `v[key]` for a value that is not `null`: the member of an object, and `undefined` (None)
      for a missing key or for any value that is not an object. */
  function Member(v: Value, key: string): (r: Option<Value>)
    ensures r.Some? <==> v.Object? && key in v.members
    ensures r.Some? ==> r.value == v.members[key]
  {
    match v
    case Object(m) => if key in m then Some(m[key]) else None
    case _ => None
  }

  /** The error `join` throws when an element has no text: an object with its own "toString"
      member (never callable in parsed JSON) cannot be converted to a primitive value. */
  const ToPrimitiveError := "TypeError: Cannot convert object to primitive value"

  /** `join` can write `v`: it is not an object with its own "toString" member, and, for an array,
      every element can be written. */
  predicate Printable(v: Value)
    decreases v
  {
    match v
    case Object(m) => "toString" !in m
    case Array(items) => forall i :: 0 <= i < |items| ==> Printable(items[i])
    case _ => true
  }

  /** Every element of `items` can be written. */
  predicate AllPrintable(items: seq<Value>)
  {
    forall i :: 0 <= i < |items| ==> Printable(items[i])
  }

  /** The text `join` writes for one element: nothing for `null`, the string itself, `true`/`false`,
      the numeral, the elements joined with "," for a nested array, and "[object Object]". */
  function ElementText(v: Value): (r: string)
    requires Printable(v)
    ensures v.Str? ==> r == v.s
    ensures v.Null? ==> r == ""
    ensures v.Bool? ==> r == (if v.b then "true" else "false")
    ensures v.Number? ==> r == Text.IntText(v.n)
    ensures v.Object? ==> r == "[object Object]"
    decreases v
  {
    match v
    case Null => ""
    case Bool(b) => if b then "true" else "false"
    case Number(n) => Text.IntText(n)
    case Str(s) => s
    case Array(items) => Text.Join(ItemTexts(items, v), ",")
    case Object(_) => "[object Object]"
  }

  /** The element texts of `items`, which are the items of `parent`. */
  function ItemTexts(items: seq<Value>, ghost parent: Value): (r: seq<string>)
    requires forall i :: 0 <= i < |items| ==> items[i] < parent
    requires AllPrintable(items)
    ensures |r| == |items|
    ensures forall i :: 0 <= i < |items| ==> r[i] == ElementText(items[i])
    decreases parent, |items|
  {
    if items == [] then [] else [ElementText(items[0])] + ItemTexts(items[1..], parent)
  }

  /** `items.join(sep)` on an array of JSON values that can all be written. */
  function JoinValues(items: seq<Value>, sep: string): (r: string)
    requires AllPrintable(items)
  {
    Text.Join(seq(|items|, i requires 0 <= i < |items| => ElementText(items[i])), sep)
  }

  /** `items.join(sep)`, which throws when some element cannot be written. */
  function Joined(items: seq<Value>, sep: string): (r: Outcome<string>)
    ensures r.Ok? <==> AllPrintable(items)
    ensures r.Ok? ==> r.value == JoinValues(items, sep)
    ensures r.Fail? ==> r.error == ToPrimitiveError
  {
    if AllPrintable(items) then Ok(JoinValues(items, sep)) else Fail(ToPrimitiveError)
  }

  /** An element whose own "toString" member is present makes `join` throw, however deep it sits
      inside nested arrays, and whatever the other elements are. */
  lemma {:induction false} NestedObjectThrows(before: seq<Value>, depth: nat, members: map<string, Value>, after: seq<Value>, sep: string)
    requires "toString" in members
    ensures Joined(before + [Nest(Object(members), depth)] + after, sep) == Fail(ToPrimitiveError)
  {
    NestNotPrintable(Object(members), depth);
    var items := before + [Nest(Object(members), depth)] + after;
    assert items[|before|] == Nest(Object(members), depth);
  }

  /** `v` wrapped in `depth` one-element arrays. */
  function Nest(v: Value, depth: nat): Value
  {
    if depth == 0 then v else Array([Nest(v, depth - 1)])
  }

  lemma {:induction false} NestNotPrintable(v: Value, depth: nat)
    requires !Printable(v)
    ensures !Printable(Nest(v, depth))
  {
    if depth > 0 {
      NestNotPrintable(v, depth - 1);
      assert Nest(v, depth).items[0] == Nest(v, depth - 1);
    }
  }

  /** On an array of strings, `join` is the join of the strings themselves. */
  lemma JoinStrings(items: seq<Value>, texts: seq<string>, sep: string)
    requires |items| == |texts|
    requires forall i :: 0 <= i < |items| ==> items[i] == Str(texts[i])
    ensures Joined(items, sep) == Ok(Text.Join(texts, sep))
  {
    assert AllPrintable(items);
    assert seq(|items|, i requires 0 <= i < |items| => ElementText(items[i])) == texts;
  }
}
