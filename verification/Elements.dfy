/** Flat runs of tagged elements: lists, arrays, and the body of an Error PDU. */
module Elements {
  import opened Octets
  import opened Tags
  import opened Forests
  import opened Values

  function Join(parts: seq<octets>): octets {
    if parts == [] then [] else parts[0] + Join(parts[1..])
  }

  /** One octet string per tag, from `position` to the end. */
  function ElementsFrom(data: octets, position: nat): Outcome<seq<octets>>
    decreases |data| - position
  {
    if position >= |data| then Ok([]) else
    var tag :- ReadTag(data, position);
    var rest :- ElementsFrom(data, tag.next);
    Ok([Slice(data, position, tag.next)] + rest)
  }

  function After(parts: seq<octets>, rest: Outcome<seq<octets>>): Outcome<seq<octets>> {
    match rest case Ok(more) => Ok(parts + more) case Raise(e) => Raise(e)
  }

  /** application_elements */
  method ApplicationElements(data: octets) returns (r: Outcome<seq<octets>>)
    ensures r == ElementsFrom(data, 0)
  {
    hide ReadTag;
    var elements: seq<octets> := [];
    var position := 0;
    assert forall more: seq<octets> {:trigger elements + more} :: elements + more == more;
    while position < |data|
      invariant ElementsFrom(data, 0) == After(elements, ElementsFrom(data, position))
      decreases |data| - position
    {
      var start := position;
      var tag := ReadTag(data, position);
      if tag.Raise? {
        return Raise(tag.error);
      }
      position := tag.value.next;
      ghost var rest := ElementsFrom(data, position);
      assert rest.Ok? ==> elements + ([Slice(data, start, position)] + rest.value)
                          == (elements + [Slice(data, start, position)]) + rest.value;
      elements := elements + [Slice(data, start, position)];
    }
    assert elements + [] == elements;
    r := Ok(elements);
  }

  /** Splitting loses nothing: whatever is split joins back to the octets it came from. */
  lemma {:induction false} SplitIsLossless(data: octets, position: nat)
    requires position <= |data| && ElementsFrom(data, position).Ok?
    ensures Join(ElementsFrom(data, position).value) == data[position..]
    decreases |data| - position
  {
    hide ReadTag;
    if position < |data| {
      var next := ReadTag(data, position).value.next;
      var parts := ElementsFrom(data, position).value;
      var end := Min(next, |data|);
      assert data[position..] == data[position..end] + data[end..];
      assert parts[1..] == ElementsFrom(data, next).value;
      if next <= |data| {
        SplitIsLossless(data, next);
      } else {
        assert ElementsFrom(data, next) == Ok([]);
      }
    }
  }

  /** Exactly one tag, of whatever kind. */
  predicate OneTag(e: octets) {
    ReadTag(e, 0).Ok? && ReadTag(e, 0).value.next == |e|
  }

  /** Splitting finds the very elements that were joined, of any kind and whatever their lengths. */
  lemma {:induction false} SplitFindsElements(data: octets, position: nat, parts: seq<octets>)
    requires forall i | 0 <= i < |parts| :: OneTag(parts[i])
    requires At(data, position, Join(parts)) && position + |Join(parts)| == |data|
    ensures ElementsFrom(data, position) == Ok(parts)
    decreases |parts|
  {
    hide ReadTag, At;
    if parts != [] {
      var e := parts[0];
      var kind := ReadTag(e, 0).value.kind;
      AtSplit(data, position, e, Join(parts[1..]));
      WholeAt(data, position, e, kind);
      AtSlice(data, position, e);
      SplitFindsElements(data, position + |e|, parts[1..]);
      assert parts == [e] + parts[1..];
    }
  }

  /** application_values: every application-tagged primitive as its tag number and content. */
  function ApplicationValues(data: octets, position: nat): Outcome<seq<(byte, octets)>>
    decreases |data| - position
  {
    if position >= |data| then Ok([]) else
    var tag :- ReadTag(data, position);
    var rest :- ApplicationValues(data, tag.next);
    Ok(if tag.kind == Value && !tag.isContext then [(tag.number, tag.body)] + rest else rest)
  }

  /** The two enumerations of an error, alone in `data`. */
  function ErrorOctets(errorClass: nat, errorCode: nat): octets
    requires errorClass < 0x1_0000_0000 && errorCode < 0x1_0000_0000
  {
    ApplicationEnumerated(errorClass) + ApplicationEnumerated(errorCode)
  }

  lemma ErrorValues(errorClass: nat, errorCode: nat)
    requires errorClass < 0x1_0000_0000 && errorCode < 0x1_0000_0000
    ensures ApplicationValues(ErrorOctets(errorClass, errorCode), 0) ==
            Ok([(9, UnsignedOctets(errorClass)), (9, UnsignedOctets(errorCode))])
    ensures Balanced(ErrorOctets(errorClass, errorCode))
  {
    hide ReadTag, Tagged, UnsignedOctets, At, Balanced;
    var a, b := ApplicationEnumerated(errorClass), ApplicationEnumerated(errorCode);
    var data := ErrorOctets(errorClass, errorCode);
    TaggedElement(9, false, UnsignedOctets(errorClass));
    TaggedElement(9, false, UnsignedOctets(errorCode));
    AtWhole(data);
    AtSplit(data, 0, a, b);
    ElementAt(data, 0, a, 9, false, Value, UnsignedOctets(errorClass));
    ElementAt(data, |a|, b, 9, false, Value, UnsignedOctets(errorCode));
    assert ApplicationValues(data, |data|) == Ok([]);
    var second := (9 as byte, UnsignedOctets(errorCode));
    assert [second] + [] == [second];
    assert ApplicationValues(data, |a|) == Ok([second]);
    assert [(9 as byte, UnsignedOctets(errorClass))] + [second] == [(9, UnsignedOctets(errorClass)), second];
    NothingBalanced();
    BalancedPrepend(b, []);
    assert b + [] == b;
    BalancedPrepend(a, b);
  }

  /** Application-tagged values, by tag number and content. */
  function TaggedValues(items: seq<(byte, octets)>): octets
    requires forall i | 0 <= i < |items| :: items[i].0 < 15 && |items[i].1| < 254
  {
    if items == [] then [] else Tagged(items[0].0, false, items[0].1) + TaggedValues(items[1..])
  }

  /** A run of application-tagged values is read as exactly those values, in order. */
  lemma {:induction false} ValuesAt(data: octets, position: nat, items: seq<(byte, octets)>)
    requires forall i | 0 <= i < |items| :: items[i].0 < 15 && items[i].0 != 1 && |items[i].1| < 254
    requires At(data, position, TaggedValues(items)) && position + |TaggedValues(items)| == |data|
    ensures ApplicationValues(data, position) == Ok(items)
    decreases |items|
  {
    hide ReadTag, Tagged, At;
    if items != [] {
      var e := Tagged(items[0].0, false, items[0].1);
      AtSplit(data, position, e, TaggedValues(items[1..]));
      TaggedElement(items[0].0, false, items[0].1);
      ElementAt(data, position, e, items[0].0, false, Value, items[0].1);
      ValuesAt(data, position + |e|, items[1..]);
      assert items == [items[0]] + items[1..];
    }
  }

  /** Context-tagged and constructed data among them is passed over. */
  lemma OthersPassedOver(data: octets, position: nat, e: octets, number: byte, isContext: bool, kind: Kind,
                         body: octets)
    requires At(data, position, e) && Element(e, number, isContext, kind, body) && (isContext || kind != Value)
    ensures ApplicationValues(data, position) == ApplicationValues(data, position + |e|)
  {
    hide ReadTag;
    ElementAt(data, position, e, number, isContext, kind, body);
  }

  lemma AtWhole(data: octets)
    ensures At(data, 0, data)
  {
    assert data[0..|data|] == data;
  }

  lemma NothingBalanced()
    ensures Balanced([])
  {
    assert WellFormed(Empty) && Encode(Empty) == [];
  }

  lemma BalancedPrepend(e: octets, value: octets)
    requires Whole(e, Value) && Balanced(value)
    ensures Balanced(e + value)
  {
    hide Whole;
    var f :| WellFormed(f) && Encode(f) == value;
    assert WellFormed(Leaf(e, f)) && Encode(Leaf(e, f)) == e + value;
  }

  /** A single value element is balanced. */
  lemma ElementBalanced(e: octets)
    requires Whole(e, Value)
    ensures Balanced(e)
  {
    NothingBalanced();
    BalancedPrepend(e, []);
    assert e + [] == e;
  }
}
