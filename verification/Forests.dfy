/** Constructed data: the octets between an opening tag and the closing tag that matches it.

    The decoders find that closing tag by counting opening and closing tags. The reference
    here is a recursive descent that builds the tree of what it reads, and the counting loops
    are proved to agree with it on every octet string, failures included. */
module Forests {
  import opened Octets
  import opened Tags

  /** A run of tagged elements: each a primitive, or an opening tag, the elements inside it
      and a closing tag. */
  datatype Forest =
    | Empty
    | Leaf(element: octets, rest: Forest)
    | Node(opening: octets, inner: Forest, closing: octets, rest: Forest)

  predicate WellFormed(f: Forest) {
    match f
    case Empty => true
    case Leaf(e, rest) => Whole(e, Value) && WellFormed(rest)
    case Node(o, inner, c, rest) => Whole(o, Open) && WellFormed(inner) && Whole(c, Close) && WellFormed(rest)
  }

  function Encode(f: Forest): octets {
    match f
    case Empty => []
    case Leaf(e, rest) => e + Encode(rest)
    case Node(o, inner, c, rest) => o + Encode(inner) + c + Encode(rest)
  }

  /** Octets that are the encoding of some forest. */
  ghost predicate Balanced(value: octets) {
    exists f :: WellFormed(f) && Encode(f) == value
  }

  /** What stands before a closing tag, where that tag starts, and the position after it. */
  datatype Span = Span(forest: Forest, closeStart: nat, next: nat)

  /** The reference: recursive descent from `position` to the closing tag of the level it is on. */
  function Descend(data: octets, position: nat): (r: Outcome<Span>)
    ensures r.Ok? ==> position <= r.value.closeStart < r.value.next <= |data|
    decreases |data| - position
  {
    var tag :- ReadTag(data, position);
    match tag.kind
    case Close => Ok(Span(Empty, position, tag.next))
    case Value =>
      var s :- Descend(data, tag.next);
      Ok(Span(Leaf(data[position..tag.next], s.forest), s.closeStart, s.next))
    case Open =>
      var inside :- Descend(data, tag.next);
      var s :- Descend(data, inside.next);
      Ok(Span(Node(data[position..tag.next], inside.forest, data[inside.closeStart..inside.next], s.forest),
              s.closeStart, s.next))
  }

  lemma SliceJoin(data: octets, i: nat, j: nat, k: nat)
    requires i <= j <= k <= |data|
    ensures data[i..j] + data[j..k] == data[i..k]
  {
  }

  /** Whatever the descent accepts is the encoding of the forest it builds. */
  lemma {:induction false} DescendSound(data: octets, position: nat)
    requires Descend(data, position).Ok?
    ensures var s := Descend(data, position).value;
            && WellFormed(s.forest) && Encode(s.forest) == data[position..s.closeStart]
            && Whole(data[s.closeStart..s.next], Close)
    decreases |data| - position
  {
    hide ReadTag, Whole;
    var tag := ReadTag(data, position).value;
    var s := Descend(data, position).value;
    if tag.kind == Close {
      WholeThere(data, position);
    } else {
      DescendSound(data, tag.next);
      WholeThere(data, position);
      var first := Descend(data, tag.next).value;
      SliceJoin(data, position, tag.next, first.closeStart);
      if tag.kind == Open {
        DescendSound(data, first.next);
        SliceJoin(data, position, first.closeStart, first.next);
        SliceJoin(data, position, first.next, s.closeStart);
      }
    }
  }

  lemma DescendEmpty(data: octets, position: nat, close: octets)
    requires At(data, position + |Encode(Empty)|, close) && Whole(close, Close)
    ensures Encode(Empty) == []
    ensures Descend(data, position) == Ok(Span(Empty, position, position + |close|))
  {
    hide ReadTag, Whole;
    WholeAt(data, position, close, Close);
  }

  lemma DescendLeaf(data: octets, position: nat, e: octets, rest: Span)
    requires At(data, position, e) && Whole(e, Value)
    requires Descend(data, position + |e|) == Ok(rest)
    ensures Descend(data, position) == Ok(rest.(forest := Leaf(e, rest.forest)))
  {
    hide ReadTag, Whole;
    WholeAt(data, position, e, Value);
  }

  lemma DescendNode(data: octets, position: nat, o: octets, inside: Span, rest: Span)
    requires At(data, position, o) && Whole(o, Open)
    requires Descend(data, position + |o|) == Ok(inside) && Descend(data, inside.next) == Ok(rest)
    ensures inside.closeStart < inside.next <= |data|
    ensures Descend(data, position) ==
            Ok(rest.(forest := Node(o, inside.forest, data[inside.closeStart..inside.next], rest.forest)))
  {
    hide ReadTag, Whole;
    WholeAt(data, position, o, Open);
  }

  /** Where the pieces of an encoded forest stand. */
  lemma PiecesAt(data: octets, position: nat, f: Forest)
    requires At(data, position, Encode(f)) && !f.Empty?
    ensures f.Leaf? ==>
              && |Encode(f)| == |f.element| + |Encode(f.rest)|
              && At(data, position, f.element) && At(data, position + |f.element|, Encode(f.rest))
    ensures f.Node? ==>
              var close := position + |f.opening| + |Encode(f.inner)|;
              && |Encode(f)| == |f.opening| + |Encode(f.inner)| + |f.closing| + |Encode(f.rest)|
              && At(data, position, f.opening) && At(data, position + |f.opening|, Encode(f.inner))
              && At(data, close, f.closing) && At(data, close + |f.closing|, Encode(f.rest))
  {
    hide At;
    if f.Leaf? {
      AtSplit(data, position, f.element, Encode(f.rest));
    } else {
      var o, inner, c, rest := f.opening, Encode(f.inner), f.closing, Encode(f.rest);
      assert Encode(f) == o + inner + c + rest;
      FourAt(data, position, o, inner, c, rest);
    }
  }

  lemma FourAt(data: octets, position: nat, a: octets, b: octets, c: octets, d: octets)
    requires At(data, position, a + b + c + d)
    ensures At(data, position, a) && At(data, position + |a|, b)
    ensures At(data, position + |a| + |b|, c) && At(data, position + |a| + |b| + |c|, d)
  {
    hide At;
    AtSplit(data, position, a + b + c, d);
    AtSplit(data, position, a + b, c);
    AtSplit(data, position, a, b);
  }

  /** Every encoded forest with a closing tag after it is found again, whatever follows. */
  lemma {:induction false} DescendComplete(data: octets, position: nat, f: Forest, close: octets)
    requires WellFormed(f) && Whole(close, Close)
    requires At(data, position, Encode(f)) && At(data, position + |Encode(f)|, close)
    ensures Descend(data, position) == Ok(Span(f, position + |Encode(f)|, position + |Encode(f)| + |close|))
    decreases f
  {
    hide ReadTag, Whole, At, Descend, Encode;
    if f.Empty? {
      DescendEmpty(data, position, close);
    } else {
      PiecesAt(data, position, f);
      if f.Leaf? {
        var after := position + |f.element|;
        DescendComplete(data, after, f.rest, close);
        DescendLeaf(data, position, f.element, Descend(data, after).value);
      } else {
        DescendComplete(data, position + |f.opening|, f.inner, f.closing);
        var inside := Descend(data, position + |f.opening|).value;
        AtSlice(data, inside.closeStart, f.closing);
        DescendComplete(data, inside.next, f.rest, close);
        DescendNode(data, position, f.opening, inside, Descend(data, inside.next).value);
      }
    }
  }

  /** Octets are balanced exactly when the descent, started on them with a closing tag after
      them, stops at that tag. */
  lemma BalancedIff(data: octets, position: nat, value: octets, close: octets)
    requires Whole(close, Close) && At(data, position, value) && At(data, position + |value|, close)
    ensures Balanced(value) <==>
            Descend(data, position).Ok? && Descend(data, position).value.closeStart == position + |value|
    ensures Balanced(value) ==> Descend(data, position).value.next == position + |value| + |close|
  {
    hide Descend, Whole, At, WellFormed, Encode;
    var r := Descend(data, position);
    if r.Ok? && r.value.closeStart == position + |value| {
      DescendSound(data, position);
      AtSlice(data, position, value);
    }
    if Balanced(value) {
      var f :| WellFormed(f) && Encode(f) == value;
      DescendComplete(data, position, f, close);
    }
  }

  // ---- the counting loops ----

  /** Where the closing tag of the `depth`-th level around `position` starts and ends. */
  function Climb(data: octets, position: nat, depth: nat): Outcome<(nat, nat)>
    requires depth > 0
    decreases depth
  {
    var s :- Descend(data, position);
    if depth == 1 then Ok((s.closeStart, s.next)) else Climb(data, s.next, depth - 1)
  }

  /** One turn of the counting loop: the depth it keeps stands for the levels still open. */
  lemma ClimbStep(data: octets, position: nat, depth: nat)
    requires depth > 0
    ensures var r := ReadTag(data, position);
            if r.Raise? then Climb(data, position, depth) == Raise(r.error) else
            match r.value.kind
            case Open => Climb(data, position, depth) == Climb(data, r.value.next, depth + 1)
            case Value => Climb(data, position, depth) == Climb(data, r.value.next, depth)
            case Close => Climb(data, position, depth) ==
                          if depth == 1 then Ok((position, r.value.next)) else Climb(data, r.value.next, depth - 1)
  {
    hide ReadTag;
    var r := ReadTag(data, position);
    if r.Ok? && r.value.kind == Open {
      var inside := Descend(data, r.value.next);
      if inside.Ok? {
        assert Climb(data, r.value.next, depth + 1) == Climb(data, inside.value.next, depth);
      }
    }
  }

  function DepthChange(kind: Kind): int {
    match kind case Open => 1 case Close => -1 case Value => 0
  }

  /** services._constructed_end and alarm._skip_constructed: the position after the closing tag. */
  method ConstructedEnd(data: octets, start: nat) returns (r: Outcome<nat>)
    ensures r == match Descend(data, start) case Ok(s) => Ok(s.next) case Raise(e) => Raise(e)
  {
    hide ReadTag, Descend;
    var depth := 1;
    var position := start;
    while depth != 0
      invariant 0 <= depth
      invariant depth > 0 ==> Climb(data, start, 1) == Climb(data, position, depth)
      invariant depth == 0 ==> Climb(data, start, 1).Ok? && Climb(data, start, 1).value.1 == position
      decreases if depth == 0 then 0 else 1 + (if position <= |data| then |data| - position + 1 else 0)
    {
      ClimbStep(data, position, depth);
      var tag := ReadTag(data, position);
      if tag.Raise? {
        return Raise(tag.error);
      }
      position := tag.value.next;
      depth := depth + DepthChange(tag.value.kind);
    }
    r := Ok(position);
  }

  /** services._constructed_body: the octets inside, and the position after the closing tag. */
  method ConstructedBody(data: octets, start: nat) returns (r: Outcome<(octets, nat)>)
    ensures r == match Descend(data, start)
                 case Ok(s) => Ok((Encode(s.forest), s.next))
                 case Raise(e) => Raise(e)
  {
    hide ReadTag, Descend;
    var depth := 1;
    var position := start;
    while true
      invariant depth > 0
      invariant Climb(data, start, 1) == Climb(data, position, depth)
      decreases if position <= |data| then |data| - position + 1 else 0
    {
      ClimbStep(data, position, depth);
      var tagStart := position;
      var tag := ReadTag(data, position);
      if tag.Raise? {
        return Raise(tag.error);
      }
      position := tag.value.next;
      depth := depth + DepthChange(tag.value.kind);
      if depth == 0 {
        DescendSound(data, start);
        return Ok((Slice(data, start, tagStart), position));
      }
    }
  }
}
