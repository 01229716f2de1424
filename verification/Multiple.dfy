/** ReadPropertyMultiple (clause 15.7 of ANSI/ASHRAE 135-2024), end to end: the client's request,
    the server's parse of it, the ACK it builds and the client's parse of that. */
module Multiple {
  import opened Octets
  import opened Tags
  import opened Forests
  import opened Values
  import opened Elements
  import opened Requests

  /** An object and the properties asked of it. */
  type Specification = (ObjectKey, seq<nat>)

  // ---- the request ----

  function References(properties: seq<nat>): octets
    requires forall i | 0 <= i < |properties| :: properties[i] < 0x1_0000_0000
  {
    if properties == [] then [] else ContextUnsigned(0, properties[0]) + References(properties[1..])
  }

  predicate ValidSpecification(s: Specification) {
    s.0.InRange() && forall i | 0 <= i < |s.1| :: s.1[i] < 0x1_0000_0000
  }

  /** read_access_specification, with property references that carry no array index. */
  function SpecificationOctets(s: Specification): octets
    requires ValidSpecification(s)
  {
    ContextObjectId(0, s.0) + (Opening(1) + (References(s.1) + Closing(1)))
  }

  function SpecificationsOctets(specifications: seq<Specification>): octets
    requires forall i | 0 <= i < |specifications| :: ValidSpecification(specifications[i])
  {
    if specifications == [] then []
    else SpecificationOctets(specifications[0]) + SpecificationsOctets(specifications[1..])
  }

  function MultipleRequest(invokeId: byte, specifications: seq<Specification>): octets
    requires forall i | 0 <= i < |specifications| :: ValidSpecification(specifications[i])
  {
    ConfirmedRequest(invokeId, SERVICE_READ_PROPERTY_MULTIPLE, SpecificationsOctets(specifications))
  }

  // ---- the server's parse ----

  /** members[key] = []: in the order of first insertion, as a Python dict keeps it. */
  function Insert(members: seq<Specification>, key: ObjectKey): (r: seq<Specification>)
    ensures |r| > 0
  {
    if members == [] then [(key, [])]
    else if members[0].0 == key then [(key, [])] + members[1..]
    else [members[0]] + Insert(members[1..], key)
  }

  /** members[key].append(property) */
  function Append(members: seq<Specification>, key: ObjectKey, property: nat): seq<Specification> {
    if members == [] then []
    else if members[0].0 == key then [(key, members[0].1 + [property])] + members[1..]
    else [members[0]] + Append(members[1..], key, property)
  }

  /** One turn of read_access_specifications on a tag it has read. */
  function TakeTag(members: seq<Specification>, current: Option<ObjectKey>, tag: Tag)
    : (seq<Specification>, Option<ObjectKey>)
  {
    if tag.kind == Value && tag.isContext && tag.number == 0 && current.None? && |tag.body| == 4 then
      var key := KeyOf(FromBytes(tag.body));
      (Insert(members, key), Some(key))
    else if tag.kind == Value && tag.isContext && tag.number == 0 && current.Some? then
      (Append(members, current.value, FromBytes(tag.body)), current)
    else if tag.kind == Close && tag.number == 1 then (members, None)
    else (members, current)
  }

  function ParseFrom(data: octets, position: nat, members: seq<Specification>,
                     current: Option<ObjectKey>): Outcome<seq<Specification>>
    decreases |data| - position
  {
    if position >= |data| then Ok(members) else
    var tag :- ReadTag(data, position);
    var (m, c) := TakeTag(members, current, tag);
    ParseFrom(data, tag.next, m, c)
  }

  function ParseSpecifications(data: octets): Outcome<seq<Specification>> { ParseFrom(data, 0, [], None) }

  /** read_access_specifications, as the loop it is. */
  method ReadAccessSpecifications(data: octets) returns (r: Outcome<seq<Specification>>)
    ensures r == ParseSpecifications(data)
  {
    hide ReadTag, TakeTag;
    var members: seq<Specification> := [];
    var current: Option<ObjectKey> := None;
    var position := 0;
    while position < |data|
      invariant ParseSpecifications(data) == ParseFrom(data, position, members, current)
      decreases |data| - position
    {
      var tag := ReadTag(data, position);
      if tag.Raise? {
        return Raise(tag.error);
      }
      position := tag.value.next;
      var taken := TakeTag(members, current, tag.value);
      members, current := taken.0, taken.1;
    }
    r := Ok(members);
  }

  // ---- the ACK ----

  /** The result of one property: its value, or Error PROPERTY / UNKNOWN_PROPERTY. */
  function ResultOctets(property: nat, value: Option<octets>): octets
    requires property < 0x1_0000_0000
  {
    ContextUnsigned(2, property) +
    (if value.Some? then Bracketed(4, value.value, []) else Bracketed(5, ErrorOctets(2, 32), []))
  }

  function ResultsOctets(key: ObjectKey, properties: seq<nat>, serve: (ObjectKey, nat) -> Option<octets>): octets
    requires forall i | 0 <= i < |properties| :: properties[i] < 0x1_0000_0000
  {
    if properties == [] then []
    else ResultOctets(properties[0], serve(key, properties[0])) + ResultsOctets(key, properties[1..], serve)
  }

  function AccessResult(s: Specification, serve: (ObjectKey, nat) -> Option<octets>): octets
    requires ValidSpecification(s)
  {
    ContextObjectId(0, s.0) + (Opening(1) + (ResultsOctets(s.0, s.1, serve) + Closing(1)))
  }

  function AccessResults(specifications: seq<Specification>, serve: (ObjectKey, nat) -> Option<octets>): octets
    requires forall i | 0 <= i < |specifications| :: ValidSpecification(specifications[i])
  {
    if specifications == [] then []
    else AccessResult(specifications[0], serve) + AccessResults(specifications[1..], serve)
  }

  /** read_property_multiple_ack; context_unsigned raises for a property past four octets. */
  function MultipleAckReply(invokeId: byte, specifications: seq<Specification>,
                            serve: (ObjectKey, nat) -> Option<octets>): Outcome<Option<octets>> {
    if forall i | 0 <= i < |specifications| :: ValidSpecification(specifications[i])
    then Ok(Some(ComplexAck(invokeId, SERVICE_READ_PROPERTY_MULTIPLE, AccessResults(specifications, serve))))
    else Raise(ValueError)
  }

  // ---- the request reaches the server ----

  ghost predicate Distinct(specifications: seq<Specification>) {
    forall i, j | 0 <= i < j < |specifications| :: specifications[i].0 != specifications[j].0
  }

  ghost predicate Absent(members: seq<Specification>, key: ObjectKey) {
    forall i | 0 <= i < |members| :: members[i].0 != key
  }

  lemma {:induction false} InsertNew(members: seq<Specification>, key: ObjectKey)
    requires Absent(members, key)
    ensures Insert(members, key) == members + [(key, [])]
  {
    if members != [] {
      InsertNew(members[1..], key);
      assert members == [members[0]] + members[1..];
    }
  }

  lemma {:induction false} AppendLast(members: seq<Specification>, key: ObjectKey, done: seq<nat>, property: nat)
    requires Absent(members, key)
    ensures Append(members + [(key, done)], key, property) == members + [(key, done + [property])]
  {
    var all := members + [(key, done)];
    if members != [] {
      AppendLast(members[1..], key, done, property);
      assert all[1..] == members[1..] + [(key, done)];
      assert members == [members[0]] + members[1..];
    }
  }

  lemma ParseStep(data: octets, position: nat, members: seq<Specification>, current: Option<ObjectKey>, tag: Tag)
    requires ReadTag(data, position) == Ok(tag)
    ensures var (m, c) := TakeTag(members, current, tag);
            ParseFrom(data, position, members, current) == ParseFrom(data, tag.next, m, c)
  {
    hide ReadTag, TakeTag;
  }

  lemma {:induction false} ReferencesAt(data: octets, position: nat, key: ObjectKey, properties: seq<nat>,
                                        members: seq<Specification>, done: seq<nat>)
    requires forall i | 0 <= i < |properties| :: properties[i] < 0x1_0000_0000
    requires At(data, position, References(properties)) && Absent(members, key)
    ensures ParseFrom(data, position, members + [(key, done)], Some(key)) ==
            ParseFrom(data, position + |References(properties)|, members + [(key, done + properties)], Some(key))
    decreases |properties|
  {
    hide ReadTag, At, ParseFrom, ContextUnsigned, UnsignedOctets, FromBytes, Append, Insert;
    if properties == [] {
      assert done + properties == done;
    } else {
      var property, rest := properties[0], properties[1..];
      var first := ContextUnsigned(0, property);
      AtSplit(data, position, first, References(rest));
      ContextUnsignedAt(data, position, 0, property);
      ParseStep(data, position, members + [(key, done)], Some(key), ReadTag(data, position).value);
      AppendLast(members, key, done, property);
      ReferencesAt(data, position + |first|, key, rest, members, done + [property]);
      assert done + [property] + rest == done + properties;
    }
  }

  lemma SpecificationAt(data: octets, position: nat, s: Specification, members: seq<Specification>)
    requires ValidSpecification(s) && At(data, position, SpecificationOctets(s)) && Absent(members, s.0)
    ensures ParseFrom(data, position, members, None) ==
            ParseFrom(data, position + |SpecificationOctets(s)|, members + [s], None)
  {
    hide ReadTag, At, ParseFrom, ContextObjectId, References, ObjectId, FromBytes, Append, Insert;
    var a, open, close := ContextObjectId(0, s.0), Opening(1), Closing(1);
    var references := References(s.1);
    AtSplit(data, position, a, open + (references + close));
    var p := position + |a|;
    AtSplit(data, p, open, references + close);
    AtSplit(data, p + 1, references, close);
    ContextObjectIdAt(data, position, 0, s.0);
    ParseStep(data, position, members, None, ReadTag(data, position).value);
    InsertNew(members, s.0);
    OpeningElement(1);
    ElementAt(data, p, open, 1, true, Open, []);
    ParseStep(data, p, members + [(s.0, [])], Some(s.0), ReadTag(data, p).value);
    ReferencesAt(data, p + 1, s.0, s.1, members, []);
    var q := p + 1 + |references|;
    ClosingElement(1);
    ElementAt(data, q, close, 1, true, Close, []);
    assert [] + s.1 == s.1;
    ParseStep(data, q, members + [(s.0, s.1)], Some(s.0), ReadTag(data, q).value);
  }

  lemma {:induction false} SpecificationsAt(data: octets, position: nat, specifications: seq<Specification>,
                                            members: seq<Specification>)
    requires forall i | 0 <= i < |specifications| :: ValidSpecification(specifications[i])
    requires Distinct(members + specifications)
    requires At(data, position, SpecificationsOctets(specifications))
             && position + |SpecificationsOctets(specifications)| == |data|
    ensures ParseFrom(data, position, members, None) == Ok(members + specifications)
    decreases |specifications|
  {
    hide ReadTag, At, SpecificationOctets;
    var all := members + specifications;
    if specifications == [] {
      assert all == members;
    } else {
      var s, rest := specifications[0], specifications[1..];
      AtSplit(data, position, SpecificationOctets(s), SpecificationsOctets(rest));
      forall i | 0 <= i < |members|
        ensures members[i].0 != s.0
      {
        assert all[i].0 != all[|members|].0;
      }
      SpecificationAt(data, position, s, members);
      assert members + [s] + rest == all;
      SpecificationsAt(data, position + |SpecificationOctets(s)|, rest, members + [s]);
    }
  }

  /** The server understands the request: the very list of objects and properties, in order. */
  lemma RequestIsUnderstood(invokeId: byte, specifications: seq<Specification>)
    requires (forall i | 0 <= i < |specifications| :: ValidSpecification(specifications[i])) && Distinct(specifications)
    ensures var apdu := MultipleRequest(invokeId, specifications);
            ParseSpecifications(Slice(apdu, 4, |apdu|)) == Ok(specifications)
  {
    hide SpecificationsOctets, ParseFrom, ValidSpecification;
    var data := SpecificationsOctets(specifications);
    var apdu := MultipleRequest(invokeId, specifications);
    assert Slice(apdu, 4, |apdu|) == data;
    AtWhole(data);
    assert [] + specifications == specifications;
    SpecificationsAt(data, 0, specifications, []);
  }

  // ---- objects named more than once ----

  /** members[key] = properties, in place if the key is there. */
  function Assign(members: seq<Specification>, key: ObjectKey, properties: seq<nat>): seq<Specification> {
    if members == [] then [(key, properties)]
    else if members[0].0 == key then [(key, properties)] + members[1..]
    else [members[0]] + Assign(members[1..], key, properties)
  }

  lemma {:induction false} InsertAssigns(members: seq<Specification>, key: ObjectKey)
    ensures Insert(members, key) == Assign(members, key, [])
  {
    if members != [] {
      InsertAssigns(members[1..], key);
    }
  }

  lemma {:induction false} AppendAssigns(members: seq<Specification>, key: ObjectKey, done: seq<nat>, property: nat)
    ensures Append(Assign(members, key, done), key, property) == Assign(members, key, done + [property])
  {
    if members != [] && members[0].0 != key {
      AppendAssigns(members[1..], key, done, property);
      assert Assign(members, key, done)[1..] == Assign(members[1..], key, done);
    }
  }

  lemma {:induction false} ReferencesAnywhere(data: octets, position: nat, key: ObjectKey, properties: seq<nat>,
                                              members: seq<Specification>, done: seq<nat>)
    requires forall i | 0 <= i < |properties| :: properties[i] < 0x1_0000_0000
    requires At(data, position, References(properties))
    ensures ParseFrom(data, position, Assign(members, key, done), Some(key)) ==
            ParseFrom(data, position + |References(properties)|, Assign(members, key, done + properties), Some(key))
    decreases |properties|
  {
    hide ReadTag, At, ParseFrom, ContextUnsigned, UnsignedOctets, FromBytes, Append, Insert, Assign;
    if properties == [] {
      assert done + properties == done;
    } else {
      var property, rest := properties[0], properties[1..];
      var first := ContextUnsigned(0, property);
      AtSplit(data, position, first, References(rest));
      ContextUnsignedAt(data, position, 0, property);
      ParseStep(data, position, Assign(members, key, done), Some(key), ReadTag(data, position).value);
      AppendAssigns(members, key, done, property);
      ReferencesAnywhere(data, position + |first|, key, rest, members, done + [property]);
      assert done + [property] + rest == done + properties;
    }
  }

  lemma SpecificationAnywhere(data: octets, position: nat, s: Specification, members: seq<Specification>)
    requires ValidSpecification(s) && At(data, position, SpecificationOctets(s))
    ensures ParseFrom(data, position, members, None) ==
            ParseFrom(data, position + |SpecificationOctets(s)|, Assign(members, s.0, s.1), None)
  {
    hide ReadTag, At, ParseFrom, ContextObjectId, References, ObjectId, FromBytes, Append, Insert, Assign;
    var a, open, close := ContextObjectId(0, s.0), Opening(1), Closing(1);
    var references := References(s.1);
    AtSplit(data, position, a, open + (references + close));
    var p := position + |a|;
    AtSplit(data, p, open, references + close);
    AtSplit(data, p + 1, references, close);
    ContextObjectIdAt(data, position, 0, s.0);
    ParseStep(data, position, members, None, ReadTag(data, position).value);
    InsertAssigns(members, s.0);
    OpeningElement(1);
    ElementAt(data, p, open, 1, true, Open, []);
    ParseStep(data, p, Assign(members, s.0, []), Some(s.0), ReadTag(data, p).value);
    ReferencesAnywhere(data, p + 1, s.0, s.1, members, []);
    var q := p + 1 + |references|;
    ClosingElement(1);
    ElementAt(data, q, close, 1, true, Close, []);
    assert [] + s.1 == s.1;
    ParseStep(data, q, Assign(members, s.0, s.1), Some(s.0), ReadTag(data, q).value);
  }

  function AssignAll(members: seq<Specification>, specifications: seq<Specification>): seq<Specification>
    decreases |specifications|
  {
    if specifications == [] then members
    else AssignAll(Assign(members, specifications[0].0, specifications[0].1), specifications[1..])
  }

  lemma {:induction false} SpecificationsAnywhere(data: octets, position: nat, specifications: seq<Specification>,
                                                  members: seq<Specification>)
    requires forall i | 0 <= i < |specifications| :: ValidSpecification(specifications[i])
    requires At(data, position, SpecificationsOctets(specifications))
    requires position + |SpecificationsOctets(specifications)| == |data|
    ensures ParseFrom(data, position, members, None) == Ok(AssignAll(members, specifications))
    decreases |specifications|
  {
    hide ReadTag, At, SpecificationOctets, Assign;
    if specifications != [] {
      var s, rest := specifications[0], specifications[1..];
      AtSplit(data, position, SpecificationOctets(s), SpecificationsOctets(rest));
      SpecificationAnywhere(data, position, s, members);
      SpecificationsAnywhere(data, position + |SpecificationOctets(s)|, rest, Assign(members, s.0, s.1));
    }
  }

  /** The properties asked of `key` where it is named last. */
  ghost predicate LastAsked(specifications: seq<Specification>, key: ObjectKey, properties: seq<nat>) {
    exists i | 0 <= i < |specifications| ::
      && specifications[i] == (key, properties)
      && forall j | i < j < |specifications| :: specifications[j].0 != key
  }

  lemma {:induction false} AssignSays(members: seq<Specification>, key: ObjectKey, properties: seq<nat>,
                                      s: Specification)
    requires Distinct(members)
    ensures Distinct(Assign(members, key, properties))
    ensures s in Assign(members, key, properties) <==> s == (key, properties) || (s in members && s.0 != key)
  {
    if members != [] {
      assert forall i | 1 <= i < |members| :: members[i] == members[1..][i - 1] && members[i].0 != members[0].0;
      AssignSays(members[1..], key, properties, s);
      if members[0].0 != key {
        var rest := Assign(members[1..], key, properties);
        forall i | 0 <= i < |rest|
          ensures rest[i].0 != members[0].0
        {
          AssignSays(members[1..], key, properties, rest[i]);
          assert rest[i] in rest;
        }
        AssignOthers(members, key, properties);
      } else {
        AssignHere(members, key, properties);
      }
    }
  }

  lemma AssignOthers(members: seq<Specification>, key: ObjectKey, properties: seq<nat>)
    requires members != [] && members[0].0 != key
    requires Distinct(Assign(members[1..], key, properties))
    requires forall i | 0 <= i < |Assign(members[1..], key, properties)| ::
               Assign(members[1..], key, properties)[i].0 != members[0].0
    ensures Distinct(Assign(members, key, properties))
  {
    var rest, all := Assign(members[1..], key, properties), Assign(members, key, properties);
    assert all == [members[0]] + rest;
    assert forall i | 1 <= i < |all| :: all[i] == rest[i - 1];
  }

  lemma AssignHere(members: seq<Specification>, key: ObjectKey, properties: seq<nat>)
    requires Distinct(members) && members != [] && members[0].0 == key
    ensures Distinct(Assign(members, key, properties))
    ensures forall s ::
              s in Assign(members, key, properties) <==> s == (key, properties) || (s in members && s.0 != key)
  {
    var all := Assign(members, key, properties);
    assert forall i | 1 <= i < |all| :: all[i] == members[i];
    forall s | s in members && s.0 != key
      ensures s in all
    {
      var i :| 0 <= i < |members| && members[i] == s;
      assert all[i] == s;
    }
  }

  lemma {:induction false} AssignAllSays(members: seq<Specification>, specifications: seq<Specification>,
                                         s: Specification)
    requires Distinct(members)
    ensures Distinct(AssignAll(members, specifications))
    ensures s in AssignAll(members, specifications) <==>
            || LastAsked(specifications, s.0, s.1)
            || (s in members && forall j | 0 <= j < |specifications| :: specifications[j].0 != s.0)
    decreases |specifications|
  {
    hide Assign, Distinct;
    if specifications != [] {
      var first, rest := specifications[0], specifications[1..];
      AssignSays(members, first.0, first.1, s);
      AssignAllSays(Assign(members, first.0, first.1), rest, s);
      assert forall j | 1 <= j < |specifications| :: specifications[j] == rest[j - 1];
      assert forall j | 0 <= j < |rest| :: rest[j] == specifications[j + 1];
      LastOfMore(specifications, s);
    }
  }

  lemma LastOfMore(specifications: seq<Specification>, s: Specification)
    requires specifications != []
    ensures var rest := specifications[1..];
            LastAsked(specifications, s.0, s.1) <==>
            || LastAsked(rest, s.0, s.1)
            || (specifications[0] == s && forall j | 0 <= j < |rest| :: rest[j].0 != s.0)
  {
    var rest := specifications[1..];
    assert forall j | 1 <= j < |specifications| :: specifications[j] == rest[j - 1];
    assert forall j | 0 <= j < |rest| :: rest[j] == specifications[j + 1];
    if LastAsked(rest, s.0, s.1) {
      var i :| 0 <= i < |rest| && rest[i] == s && forall j | i < j < |rest| :: rest[j].0 != s.0;
      assert specifications[i + 1] == s;
      assert forall j | i + 1 < j < |specifications| :: specifications[j].0 != s.0;
    }
    if LastAsked(specifications, s.0, s.1) && specifications[0] != s {
      var i :|
        && 0 <= i < |specifications| && specifications[i] == s
        && forall j | i < j < |specifications| :: specifications[j].0 != s.0;
      assert rest[i - 1] == s;
      assert forall j | i - 1 < j < |rest| :: rest[j].0 != s.0;
    }
  }

  /** Whatever objects a request names, and however often: the server understands each object once, with
      the properties asked where it is named last. An earlier mention of it is lost. */
  lemma RepeatedObjects(invokeId: byte, specifications: seq<Specification>, s: Specification)
    requires forall i | 0 <= i < |specifications| :: ValidSpecification(specifications[i])
    ensures var apdu := MultipleRequest(invokeId, specifications);
            var understood := ParseSpecifications(Slice(apdu, 4, |apdu|));
            && understood.Ok? && Distinct(understood.value)
            && (s in understood.value <==> LastAsked(specifications, s.0, s.1))
  {
    hide SpecificationsOctets, ParseFrom, ValidSpecification, AssignAll, LastAsked;
    var data := SpecificationsOctets(specifications);
    var apdu := MultipleRequest(invokeId, specifications);
    assert Slice(apdu, 4, |apdu|) == data;
    AtWhole(data);
    SpecificationsAnywhere(data, 0, specifications, []);
    AssignAllSays([], specifications, s);
  }

  // ---- the client's parse of the ACK ----

  /** A property identifier, with an array index when the result carried one. */
  datatype Reference = Reference(property: Option<nat>, index: Option<nat>)

  /** The value octets, or the class and code of an error. */
  datatype Result = Got(value: octets) | Failed(codes: seq<nat>)

  type Results = map<ObjectKey, map<Reference, Result>>

  datatype Progress = Progress(results: Results, current: Option<ObjectKey>, property: Option<nat>, index: Option<nat>)

  function ErrorCodes(values: seq<(byte, octets)>): seq<nat> {
    if |values| == 0 then [] else if |values| == 1 then [FromBytes(values[0].1)]
    else [FromBytes(values[0].1), FromBytes(values[1].1)]
  }

  function ResultOf(number: byte, inner: octets): Outcome<Result> {
    if number == 4 then Ok(Got(inner)) else
    var values :- ApplicationValues(inner, 0);
    Ok(Failed(ErrorCodes(values)))
  }

  function Put(p: Progress, result: Result): Progress
    requires p.current.Some?
  {
    var before := if p.current.value in p.results then p.results[p.current.value] else map[];
    p.(results := p.results[p.current.value := before[Reference(p.property, p.index) := result]])
  }

  function SetDefault(p: Progress, key: ObjectKey): Progress {
    p.(results := if key in p.results then p.results else p.results[key := map[]], current := Some(key))
  }

  /** One turn of the loop on a tag that has been read: the new progress and position. */
  function TakeResult(apdu: octets, p: Progress, tag: Tag): (r: Outcome<(Progress, nat)>)
    ensures r.Ok? ==> r.value.1 >= tag.next
  {
    if tag.kind == Value && tag.isContext && tag.number == 0 then
      var raw :- Unpack(tag.body, 4);
      Ok((SetDefault(p, KeyOf(raw)), tag.next))
    else if tag.kind == Value && tag.isContext && tag.number == 2 then
      Ok((p.(property := Some(FromBytes(tag.body)), index := None), tag.next))
    else if tag.kind == Value && tag.isContext && tag.number == 3 then
      Ok((p.(index := Some(FromBytes(tag.body))), tag.next))
    else if tag.kind == Open && tag.number in {4, 5} && p.current.Some? then
      var span :- Descend(apdu, tag.next);
      var result :- ResultOf(tag.number, Slice(apdu, tag.next, span.closeStart));
      Ok((Put(p, result), span.next))
    else Ok((p, tag.next))
  }

  function ParseAckFrom(apdu: octets, position: nat, p: Progress): Outcome<Results>
    decreases |apdu| - position
  {
    if position >= |apdu| then Ok(p.results) else
    var tag :- ReadTag(apdu, position);
    var (q, next) :- TakeResult(apdu, p, tag);
    ParseAckFrom(apdu, next, q)
  }

  const NOTHING := Progress(map[], None, None, None)

  /** _complex_ack: is this APDU a ComplexACK of ReadPropertyMultiple? Looking for the service of
      one that is too short raises. */
  function IsMultipleAck(apdu: octets): Outcome<bool> {
    if apdu == [] || apdu[0] / 16 != 3 then Ok(false)
    else if |apdu| < 3 then Raise(IndexError)
    else Ok(apdu[2] == SERVICE_READ_PROPERTY_MULTIPLE)
  }

  function ParseMultipleAck(apdu: octets): Outcome<Option<Results>> {
    var ours :- IsMultipleAck(apdu);
    if ours then Caught(ParseAckFrom(apdu, 3, NOTHING)) else Ok(None)
  }

  /** parse_read_property_multiple_ack, as the loop it is. */
  method ParseReadPropertyMultipleAck(apdu: octets) returns (r: Outcome<Option<Results>>)
    ensures r == ParseMultipleAck(apdu)
  {
    hide ReadTag, TakeResult;
    var ours := IsMultipleAck(apdu);
    if ours != Ok(true) {
      return if ours.Ok? then Ok(None) else Raise(ours.error);
    }
    var p := NOTHING;
    var position := 3;
    while position < |apdu|
      invariant ParseAckFrom(apdu, 3, NOTHING) == ParseAckFrom(apdu, position, p)
      decreases |apdu| - position
    {
      var tag := ReadTag(apdu, position);
      if tag.Raise? {
        return Caught(Raise(tag.error));
      }
      var taken := Take(apdu, p, tag.value);
      if taken.Raise? {
        return Caught(Raise(taken.error));
      }
      p, position := taken.value.0, taken.value.1;
    }
    r := Ok(Some(p.results));
  }

  /** The body of that loop, with the depth loop over a constructed result. */
  method Take(apdu: octets, p: Progress, tag: Tag) returns (r: Outcome<(Progress, nat)>)
    ensures r == TakeResult(apdu, p, tag)
  {
    hide ReadTag, Descend, ApplicationValues, FromBytes, SetDefault, Put;
    if tag.kind == Value && tag.isContext && tag.number == 0 {
      var raw := Unpack(tag.body, 4);
      if raw.Raise? {
        return Raise(raw.error);
      }
      return Ok((SetDefault(p, KeyOf(raw.value)), tag.next));
    }
    if tag.kind == Value && tag.isContext && tag.number == 2 {
      return Ok((p.(property := Some(FromBytes(tag.body)), index := None), tag.next));
    }
    if tag.kind == Value && tag.isContext && tag.number == 3 {
      return Ok((p.(index := Some(FromBytes(tag.body))), tag.next));
    }
    if tag.kind == Open && tag.number in {4, 5} && p.current.Some? {
      var body := ConstructedBody(apdu, tag.next);
      if body.Raise? {
        return Raise(body.error);
      }
      DescendSound(apdu, tag.next);
      var result := ResultOf(tag.number, body.value.0);
      if result.Raise? {
        return Raise(result.error);
      }
      return Ok((Put(p, result.value), body.value.1));
    }
    return Ok((p, tag.next));
  }

  // ---- the ACK reaches the client ----

  /** What the client is to learn about one property. */
  function Expected(value: Option<octets>): Result {
    if value.Some? then Got(value.value) else Failed([2, 32])
  }

  function Fill(m: map<Reference, Result>, key: ObjectKey, properties: seq<nat>,
                serve: (ObjectKey, nat) -> Option<octets>): map<Reference, Result>
    decreases |properties|
  {
    if properties == [] then m
    else
      var first := m[Reference(Some(properties[0]), None) := Expected(serve(key, properties[0]))];
      Fill(first, key, properties[1..], serve)
  }

  lemma AckStep(apdu: octets, position: nat, p: Progress, tag: Tag, q: Progress, next: nat)
    requires ReadTag(apdu, position) == Ok(tag) && TakeResult(apdu, p, tag) == Ok((q, next))
    ensures ParseAckFrom(apdu, position, p) == ParseAckFrom(apdu, next, q)
  {
    hide ReadTag, TakeResult;
  }

  /** The bracketed part of one result. */
  lemma BracketResultAt(apdu: octets, position: nat, number: nat, inner: octets, p: Progress, result: Result)
    requires number in {4, 5} && p.current.Some? && Balanced(inner)
    requires At(apdu, position, Bracketed(number, inner, [])) && ResultOf(number, inner) == Ok(result)
    ensures ParseAckFrom(apdu, position, p) ==
            ParseAckFrom(apdu, position + |Bracketed(number, inner, [])|, Put(p, result))
  {
    hide ReadTag, At, Descend, Balanced, ParseAckFrom, ResultOf, Slice, Put;
    BracketedAt(apdu, position, number, inner, []);
    var span := Descend(apdu, position + 1).value;
    CutAt(apdu, position + 1, inner, span.closeStart);
    AckStep(apdu, position, p, ReadTag(apdu, position).value, Put(p, result), span.next);
  }

  lemma ErrorResult()
    ensures ResultOf(5, ErrorOctets(2, 32)) == Ok(Failed([2, 32])) && Balanced(ErrorOctets(2, 32))
  {
    hide ApplicationValues, ErrorOctets, Balanced, UnsignedOctets, FromBytes;
    ErrorValues(2, 32);
  }

  lemma ResultAt(apdu: octets, position: nat, property: nat, value: Option<octets>, p: Progress)
    requires property < 0x1_0000_0000 && p.current.Some? && (value.Some? ==> Balanced(value.value))
    requires At(apdu, position, ResultOctets(property, value))
    ensures ParseAckFrom(apdu, position, p) ==
            ParseAckFrom(apdu, position + |ResultOctets(property, value)|,
                         Put(p.(property := Some(property), index := None), Expected(value)))
  {
    hide ReadTag, At, Balanced, ParseAckFrom, ContextUnsigned, UnsignedOctets, FromBytes, ErrorOctets, Put, Bracketed,
        ResultOf;
    var a := ContextUnsigned(2, property);
    var number, inner := if value.Some? then 4 else 5, if value.Some? then value.value else ErrorOctets(2, 32);
    AtSplit(apdu, position, a, Bracketed(number, inner, []));
    ContextUnsignedAt(apdu, position, 2, property);
    var q := p.(property := Some(property), index := None);
    AckStep(apdu, position, p, ReadTag(apdu, position).value, q, position + |a|);
    ErrorResult();
    ValueResult(inner);
    BracketResultAt(apdu, position + |a|, number, inner, q, Expected(value));
  }

  /** A result that carries an array index is filed under the property and that index. */
  lemma IndexedResultAt(apdu: octets, position: nat, property: nat, index: nat, value: octets, p: Progress)
    requires property < 0x1_0000_0000 && index < 0x1_0000_0000 && p.current.Some? && Balanced(value)
    requires At(apdu, position, ContextUnsigned(2, property) + (ContextUnsigned(3, index) + Bracketed(4, value, [])))
    ensures var key := p.current.value;
            var before := if key in p.results then p.results[key] else map[];
            var after := before[Reference(Some(property), Some(index)) := Got(value)];
            ParseAckFrom(apdu, position, p) ==
            ParseAckFrom(apdu, position + |ContextUnsigned(2, property)| + |ContextUnsigned(3, index)| + |value| + 2,
                         Progress(p.results[key := after], Some(key), Some(property), Some(index)))
  {
    hide ReadTag, At, Balanced, ParseAckFrom, ContextUnsigned, UnsignedOctets, FromBytes, ResultOf;
    var a, b := ContextUnsigned(2, property), ContextUnsigned(3, index);
    AtSplit(apdu, position, a, b + Bracketed(4, value, []));
    AtSplit(apdu, position + |a|, b, Bracketed(4, value, []));
    ContextUnsignedAt(apdu, position, 2, property);
    var q := p.(property := Some(property), index := None);
    AckStep(apdu, position, p, ReadTag(apdu, position).value, q, position + |a|);
    ContextUnsignedAt(apdu, position + |a|, 3, index);
    AckStep(apdu, position + |a|, q, ReadTag(apdu, position + |a|).value, q.(index := Some(index)),
            position + |a| + |b|);
    ValueResult(value);
    BracketResultAt(apdu, position + |a| + |b|, 4, value, q.(index := Some(index)), Got(value));
  }

  lemma ValueResult(inner: octets)
    ensures ResultOf(4, inner) == Ok(Got(inner))
  {
  }

  ghost predicate ServesBalanced(key: ObjectKey, properties: seq<nat>, serve: (ObjectKey, nat) -> Option<octets>) {
    forall i | 0 <= i < |properties| ::
      serve(key, properties[i]).Some? ==> Balanced(serve(key, properties[i]).value)
  }

  /** Every value that is asked for, where one is served, is balanced. */
  ghost predicate AskedBalanced(specifications: seq<Specification>, serve: (ObjectKey, nat) -> Option<octets>) {
    forall i | 0 <= i < |specifications| :: ServesBalanced(specifications[i].0, specifications[i].1, serve)
  }

  lemma {:induction false} ResultsAt(apdu: octets, position: nat, key: ObjectKey, properties: seq<nat>,
                                     serve: (ObjectKey, nat) -> Option<octets>, p: Progress) returns (q: Progress)
    requires forall i | 0 <= i < |properties| :: properties[i] < 0x1_0000_0000
    requires ServesBalanced(key, properties, serve) && p.current == Some(key) && key in p.results
    requires At(apdu, position, ResultsOctets(key, properties, serve))
    ensures q.current == Some(key) && q.results == p.results[key := Fill(p.results[key], key, properties, serve)]
    ensures ParseAckFrom(apdu, position, p) == ParseAckFrom(apdu, position + |ResultsOctets(key, properties, serve)|, q)
    decreases |properties|
  {
    hide At, ParseAckFrom, ResultOctets, Balanced;
    if properties == [] {
      q := p;
      assert p.results == p.results[key := p.results[key]];
    } else {
      var property, rest := properties[0], properties[1..];
      var value := serve(key, property);
      var first := ResultOctets(property, value);
      AtSplit(apdu, position, first, ResultsOctets(key, rest, serve));
      ResultAt(apdu, position, property, value, p);
      var m := Put(p.(property := Some(property), index := None), Expected(value));
      q := ResultsAt(apdu, position + |first|, key, rest, serve, m);
    }
  }

  lemma AccessResultAt(apdu: octets, position: nat, s: Specification, serve: (ObjectKey, nat) -> Option<octets>,
                       p: Progress) returns (q: Progress)
    requires ValidSpecification(s) && ServesBalanced(s.0, s.1, serve)
    requires At(apdu, position, AccessResult(s, serve))
    ensures q.results == p.results[s.0 := Fill(Known(p.results, s.0), s.0, s.1, serve)]
    ensures ParseAckFrom(apdu, position, p) == ParseAckFrom(apdu, position + |AccessResult(s, serve)|, q)
  {
    hide ReadTag, At, ParseAckFrom, ContextObjectId, ObjectId, FromBytes, ResultsOctets, Fill, ServesBalanced;
    var a, open, close := ContextObjectId(0, s.0), Opening(1), Closing(1);
    var body := ResultsOctets(s.0, s.1, serve);
    AtSplit(apdu, position, a, open + (body + close));
    var b := position + |a|;
    AtSplit(apdu, b, open, body + close);
    AtSplit(apdu, b + 1, body, close);
    ContextObjectIdAt(apdu, position, 0, s.0);
    var m := SetDefault(p, s.0);
    AckStep(apdu, position, p, ReadTag(apdu, position).value, m, b);
    OpeningElement(1);
    ElementAt(apdu, b, open, 1, true, Open, []);
    AckStep(apdu, b, m, ReadTag(apdu, b).value, m, b + 1);
    q := ResultsAt(apdu, b + 1, s.0, s.1, serve, m);
    var c := b + 1 + |body|;
    ClosingElement(1);
    ElementAt(apdu, c, close, 1, true, Close, []);
    AckStep(apdu, c, q, ReadTag(apdu, c).value, q, c + 1);
  }

  /** What is known of an object already. */
  function Known(results: Results, key: ObjectKey): map<Reference, Result> {
    if key in results then results[key] else map[]
  }

  function FillAll(results: Results, specifications: seq<Specification>,
                   serve: (ObjectKey, nat) -> Option<octets>): Results
    decreases |specifications|
  {
    if specifications == [] then results
    else
      var (key, properties) := specifications[0];
      FillAll(results[key := Fill(Known(results, key), key, properties, serve)], specifications[1..], serve)
  }

  lemma {:induction false} AccessResultsAt(apdu: octets, position: nat, specifications: seq<Specification>,
                                           serve: (ObjectKey, nat) -> Option<octets>, p: Progress)
    requires forall i | 0 <= i < |specifications| :: ValidSpecification(specifications[i])
    requires AskedBalanced(specifications, serve)
    requires At(apdu, position, AccessResults(specifications, serve))
    requires position + |AccessResults(specifications, serve)| == |apdu|
    ensures ParseAckFrom(apdu, position, p) == Ok(FillAll(p.results, specifications, serve))
    decreases |specifications|
  {
    hide At, AccessResult, Fill, ServesBalanced, ReadTag, TakeResult;
    if specifications != [] {
      var s, rest := specifications[0], specifications[1..];
      AtSplit(apdu, position, AccessResult(s, serve), AccessResults(rest, serve));
      var q := AccessResultAt(apdu, position, s, serve, p);
      AccessResultsAt(apdu, position + |AccessResult(s, serve)|, rest, serve, q);
    }
  }

  // ---- what the filled map says ----

  lemma {:induction false} FillSays(m: map<Reference, Result>, key: ObjectKey, properties: seq<nat>,
                                    serve: (ObjectKey, nat) -> Option<octets>, r: Reference)
    ensures var f := Fill(m, key, properties, serve);
            && (r in f <==> r in m || (r.index.None? && r.property.Some? && r.property.value in properties))
            && (r.index.None? && r.property.Some? && r.property.value in properties ==>
                  f[r] == Expected(serve(key, r.property.value)))
            && (r in m && !(r.index.None? && r.property.Some? && r.property.value in properties) ==> f[r] == m[r])
    decreases |properties|
  {
    if properties != [] {
      var next := m[Reference(Some(properties[0]), None) := Expected(serve(key, properties[0]))];
      FillSays(next, key, properties[1..], serve, r);
    }
  }

  lemma {:induction false} FillAllSays(results: Results, specifications: seq<Specification>,
                                       serve: (ObjectKey, nat) -> Option<octets>, key: ObjectKey)
    requires Distinct(specifications) && forall i | 0 <= i < |specifications| :: specifications[i].0 !in results
    ensures var f := FillAll(results, specifications, serve);
            && (key in f <==> key in results || exists i | 0 <= i < |specifications| :: specifications[i].0 == key)
            && (forall i | 0 <= i < |specifications| && specifications[i].0 == key ::
                  f[key] == Fill(map[], key, specifications[i].1, serve))
            && (key in results && (forall i | 0 <= i < |specifications| :: specifications[i].0 != key) ==>
                f[key] == results[key])
    decreases |specifications|
  {
    hide Fill;
    if specifications != [] {
      var s, rest := specifications[0], specifications[1..];
      var next := results[s.0 := Fill(map[], s.0, s.1, serve)];
      assert forall i | 0 <= i < |rest| :: rest[i] == specifications[i + 1] && rest[i].0 != s.0;
      FillAllSays(next, rest, serve, key);
      assert forall i | 1 <= i < |specifications| :: specifications[i] == rest[i - 1];
    }
  }

  /** The reference is to a property that the list asks of the object, somewhere. */
  ghost predicate AskedOf(specifications: seq<Specification>, key: ObjectKey, r: Reference) {
    && r.index.None? && r.property.Some?
    && exists i | 0 <= i < |specifications| :: specifications[i].0 == key && r.property.value in specifications[i].1
  }

  /** Results of an object that comes more than once are put together: whatever of it is anywhere in
      the list is known in the end, and nothing known before is lost. */
  lemma {:induction false} ResultsAddUp(results: Results, specifications: seq<Specification>,
                                        serve: (ObjectKey, nat) -> Option<octets>, key: ObjectKey, r: Reference)
    ensures var f := FillAll(results, specifications, serve);
            && (r in Known(f, key) <==> r in Known(results, key) || AskedOf(specifications, key, r))
            && (AskedOf(specifications, key, r) ==> Known(f, key)[r] == Expected(serve(key, r.property.value)))
            && (!AskedOf(specifications, key, r) && r in Known(results, key) ==>
                  Known(f, key)[r] == Known(results, key)[r])
    decreases |specifications|
  {
    hide Fill;
    if specifications != [] {
      var s, rest := specifications[0], specifications[1..];
      var next := results[s.0 := Fill(Known(results, s.0), s.0, s.1, serve)];
      FillSays(Known(results, s.0), s.0, s.1, serve, r);
      ResultsAddUp(next, rest, serve, key, r);
      assert forall i | 0 <= i < |rest| :: rest[i] == specifications[i + 1];
      assert forall i | 1 <= i < |specifications| :: specifications[i] == rest[i - 1];
    }
  }

  /** Exactly these properties, each with the octets served or error PROPERTY / UNKNOWN_PROPERTY. */
  ghost predicate Describes(m: map<Reference, Result>, key: ObjectKey, properties: seq<nat>,
                            serve: (ObjectKey, nat) -> Option<octets>) {
    forall r: Reference ::
      && (r in m <==> r.index.None? && r.property.Some? && r.property.value in properties)
      && (r in m ==> m[r] == Expected(serve(key, r.property.value)))
  }

  /** The map a client is to get: exactly the objects asked for, each with exactly what was asked of it. */
  ghost predicate Complete(results: Results, specifications: seq<Specification>,
                           serve: (ObjectKey, nat) -> Option<octets>) {
    && (forall key :: key in results <==> exists i | 0 <= i < |specifications| :: specifications[i].0 == key)
    && forall i | 0 <= i < |specifications| ::
         && specifications[i].0 in results
         && Describes(results[specifications[i].0], specifications[i].0, specifications[i].1, serve)
  }

  lemma FillDescribes(key: ObjectKey, properties: seq<nat>, serve: (ObjectKey, nat) -> Option<octets>)
    ensures Describes(Fill(map[], key, properties, serve), key, properties, serve)
  {
    hide Fill;
    var f := Fill(map[], key, properties, serve);
    forall r: Reference
      ensures && (r in f <==> r.index.None? && r.property.Some? && r.property.value in properties)
              && (r in f ==> f[r] == Expected(serve(key, r.property.value)))
    {
      FillSays(map[], key, properties, serve, r);
    }
  }

  lemma FilledIsComplete(specifications: seq<Specification>, serve: (ObjectKey, nat) -> Option<octets>)
    requires Distinct(specifications)
    ensures Complete(FillAll(map[], specifications, serve), specifications, serve)
  {
    hide Fill, FillAll, Describes;
    var f := FillAll(map[], specifications, serve);
    forall key
      ensures key in f <==> exists i | 0 <= i < |specifications| :: specifications[i].0 == key
    {
      FillAllSays(map[], specifications, serve, key);
    }
    forall i | 0 <= i < |specifications|
      ensures specifications[i].0 in f
      ensures Describes(f[specifications[i].0], specifications[i].0, specifications[i].1, serve)
    {
      FillAllSays(map[], specifications, serve, specifications[i].0);
      FillDescribes(specifications[i].0, specifications[i].1, serve);
    }
  }

  // ---- only balanced octets are ever learned ----

  ghost predicate AllBalanced(results: Results) {
    forall key, reference | key in results && reference in results[key] ::
      results[key][reference].Got? ==> Balanced(results[key][reference].value)
  }

  /** Whatever the turn takes as a value is what the descent delimits. */
  lemma TakeBalanced(apdu: octets, p: Progress, tag: Tag)
    requires AllBalanced(p.results) && TakeResult(apdu, p, tag).Ok?
    ensures AllBalanced(TakeResult(apdu, p, tag).value.0.results)
  {
    hide ReadTag, Descend, ApplicationValues, Balanced, FromBytes;
    if tag.kind == Open && tag.number in {4, 5} && p.current.Some? {
      var span := Descend(apdu, tag.next).value;
      DescendedBalanced(apdu, tag.next);
      assert Balanced(Slice(apdu, tag.next, span.closeStart));
    }
  }

  lemma DescendedBalanced(data: octets, position: nat)
    requires Descend(data, position).Ok?
    ensures Balanced(Slice(data, position, Descend(data, position).value.closeStart))
  {
    hide Descend, ReadTag;
    DescendSound(data, position);
  }

  lemma {:induction false} ParsedBalanced(apdu: octets, position: nat, p: Progress)
    requires AllBalanced(p.results) && ParseAckFrom(apdu, position, p).Ok?
    ensures AllBalanced(ParseAckFrom(apdu, position, p).value)
    decreases |apdu| - position
  {
    hide ReadTag, TakeResult, AllBalanced;
    if position < |apdu| {
      var tag := ReadTag(apdu, position).value;
      TakeBalanced(apdu, p, tag);
      var taken := TakeResult(apdu, p, tag).value;
      ParsedBalanced(apdu, taken.1, taken.0);
    }
  }

  /** A client that learns all it asked for has been given balanced octets. */
  lemma CompleteIsBalanced(results: Results, specifications: seq<Specification>,
                           serve: (ObjectKey, nat) -> Option<octets>)
    requires Complete(results, specifications, serve) && AllBalanced(results)
    ensures AskedBalanced(specifications, serve)
  {
    hide Balanced;
    forall i, j | 0 <= i < |specifications| && 0 <= j < |specifications[i].1|
      ensures serve(specifications[i].0, specifications[i].1[j]).Some? ==>
                Balanced(serve(specifications[i].0, specifications[i].1[j]).value)
    {
      var (key, properties) := specifications[i];
      var reference := Reference(Some(properties[j]), None);
      assert Describes(results[key], key, properties, serve);
      assert reference in results[key];
    }
  }

  /** Request, server parse, ACK and client parse together: for every list of distinct objects,
      whatever is served, the client learns exactly what was asked and served, if and only if every
      value asked for is balanced where one is served. */
  lemma MultipleRoundTrip(invokeId: byte, specifications: seq<Specification>, serve: (ObjectKey, nat) -> Option<octets>)
    requires (forall i | 0 <= i < |specifications| :: ValidSpecification(specifications[i])) && Distinct(specifications)
    ensures var request := MultipleRequest(invokeId, specifications);
            var understood := ParseSpecifications(Slice(request, 4, |request|));
            && understood.Ok?
            && var ack := MultipleAckReply(invokeId, understood.value, serve);
            && ack.Ok? && ack.value.Some?
            && var learned := ParseMultipleAck(ack.value.value);
            && (learned.Ok? && learned.value.Some? && Complete(learned.value.value, specifications, serve)
                <==> AskedBalanced(specifications, serve))
  {
    hide MultipleRequest, ParseSpecifications, ParseAckFrom, AccessResults, AskedBalanced, ValidSpecification, Complete,
         FillAll, Slice, At, AllBalanced;
    RequestIsUnderstood(invokeId, specifications);
    var body := AccessResults(specifications, serve);
    var apdu := ComplexAck(invokeId, SERVICE_READ_PROPERTY_MULTIPLE, body);
    AtTail([0x30, invokeId, SERVICE_READ_PROPERTY_MULTIPLE], body);
    if AskedBalanced(specifications, serve) {
      AccessResultsAt(apdu, 3, specifications, serve, NOTHING);
      FilledIsComplete(specifications, serve);
    }
    var learned := ParseAckFrom(apdu, 3, NOTHING);
    if learned.Ok? {
      NothingLearned();
      ParsedBalanced(apdu, 3, NOTHING);
      if Complete(learned.value, specifications, serve) {
        CompleteIsBalanced(learned.value, specifications, serve);
      }
    }
  }

  // ---- what else may arrive ----

  /** Only a ComplexACK of ReadPropertyMultiple is looked into; one without its service octet raises. */
  lemma OtherAnswers(apdu: octets)
    ensures apdu == [] || apdu[0] / 16 != 3 || (|apdu| > 2 && apdu[2] != 14) ==> ParseMultipleAck(apdu) == Ok(None)
    ensures 0 < |apdu| < 3 && apdu[0] / 16 == 3 ==> ParseMultipleAck(apdu) == Raise(IndexError)
  {
    hide ParseAckFrom;
  }

  /** In a request, whatever is not an object identifier of four octets outside a list, a property
      identifier inside one, or the end of a list, is passed over; array indexes are. */
  lemma RequestPassesOver(members: seq<Specification>, current: Option<ObjectKey>, tag: Tag)
    requires !(tag.isContext && tag.number == 0 && tag.kind == Value && (current.Some? || |tag.body| == 4))
    requires !(tag.kind == Close && tag.number == 1)
    ensures TakeTag(members, current, tag) == (members, current)
  {
  }

  /** The codes of an error are the first two numbers there are. */
  lemma FirstTwoCodes(values: seq<(byte, octets)>)
    ensures |ErrorCodes(values)| == Min(2, |values|)
    ensures forall i | 0 <= i < |ErrorCodes(values)| :: ErrorCodes(values)[i] == FromBytes(values[i].1)
  {
    hide FromBytes;
  }

  /** A server asked for a property past four octets raises, since its ACK cannot name it. */
  lemma UnnamedProperty(invokeId: byte, specifications: seq<Specification>, serve: (ObjectKey, nat) -> Option<octets>,
                        i: nat, j: nat)
    requires i < |specifications| && j < |specifications[i].1| && specifications[i].1[j] >= 0x1_0000_0000
    ensures MultipleAckReply(invokeId, specifications, serve) == Raise(ValueError)
  {
    hide AccessResults;
  }

  lemma NothingLearned()
    ensures AllBalanced(NOTHING.results)
  {
  }
}
